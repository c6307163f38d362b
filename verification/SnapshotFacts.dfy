/** Applying a snapshot: exactly the snapshot's configuration, this node's own columns
    and downloads kept, and nothing new the second time. */
module SnapshotFacts {
  import opened Wrappers
  import opened Tables

  // ----- the configuration a snapshot describes -----

  function ViewNames(vs: seq<View>): set<string> { set v | v in vs :: v.name }

  // A later entry of one name replaces the earlier one's subnets.
  function Claims(vs: seq<View>): map<string, string> {
    if vs == [] then map[]
    else
      var rest, v := Claims(vs[..|vs| - 1]), vs[|vs| - 1];
      rest - OwnedBy(rest, v.name) + AllTo(v.subnets, v.name)
  }

  function ServiceRows(svcs: seq<Service>): map<string, ServiceRow> {
    if svcs == [] then map[] else ServiceRows(svcs[..|svcs| - 1])[svcs[|svcs| - 1].name := svcs[|svcs| - 1].row]
  }

  function ServiceAddresses(svcs: seq<Service>): map<string, seq<Address>> {
    if svcs == [] then
      map[] else ServiceAddresses(svcs[..|svcs| - 1])[svcs[|svcs| - 1].name := svcs[|svcs| - 1].addresses]
  }

  function ServiceAliases(svcs: seq<Service>): map<string, string> {
    if svcs == [] then map[]
    else ServiceAliases(svcs[..|svcs| - 1]) + AllTo(svcs[|svcs| - 1].aliases, svcs[|svcs| - 1].name)
  }

  function LastDefs(ls: seq<ListDef>): map<string, ListDef> {
    if ls == [] then map[] else LastDefs(ls[..|ls| - 1])[ls[|ls| - 1].name := ls[|ls| - 1]]
  }

  function RuleKinds(rs: seq<Rule>): map<string, string> {
    if rs == [] then map[] else RuleKinds(rs[..|rs| - 1])[rs[|rs| - 1].domain := rs[|rs| - 1].kind]
  }

  function InputConfig(input: Input): Config {
    Config(ViewNames(input.views), Claims(input.views), ServiceRows(input.services), ServiceAddresses(input.services),
           ServiceAliases(input.services), multiset(input.records), Some(Pack(input.settings.shared)), input.blacklist,
           LastDefs(input.lists), RuleKinds(input.rules))
  }

  // ----- the registry -----

  lemma {:induction false} ViewsGive(db: Db, vs: seq<View>)
    requires db.views == {} && db.subnets == map[] && ViewsPut(db, vs).Ok?
    ensures var d := ViewsPut(db, vs).value;
      d == db.(views := ViewNames(vs), subnets := Claims(vs), version := d.version)
  {
    if vs != [] {
      var n := |vs| - 1;
      ViewsGive(db, vs[..n]);
      ClaimsGrow(vs, n);
      ViewGives(ViewsPut(db, vs[..n]).value, vs[n]);
    }
  }

  lemma ClaimsGrow(vs: seq<View>, n: nat)
    requires n + 1 == |vs|
    ensures ViewNames(vs) == ViewNames(vs[..n]) + {vs[n].name}
    ensures var rest := Claims(vs[..n]);
      Claims(vs) == rest - OwnedBy(rest, vs[n].name) + AllTo(vs[n].subnets, vs[n].name)
  {
    assert vs == vs[..n] + [vs[n]];
  }

  lemma ViewGives(d: Db, v: View)
    requires ViewPut(d, v).Ok?
    ensures var e := ViewPut(d, v).value;
      e == d.(views := d.views + {v.name}, subnets := d.subnets - OwnedBy(d.subnets, v.name) + AllTo(v.subnets, v.name),
              version := e.version)
  {
  }

  function AllRows(svcs: seq<Service>): seq<AddressRow> {
    if svcs == [] then [] else AllRows(svcs[..|svcs| - 1]) + RowsFor(svcs[|svcs| - 1].name, svcs[|svcs| - 1].addresses)
  }

  lemma OneMoreAddress(rows: seq<AddressRow>, r: AddressRow, n: string)
    ensures AddressesOf(rows + [r], n) == AddressesOf(rows, n) + (if r.service == n then [r.address] else [])
  {
    assert (rows + [r])[..|rows|] == rows;
  }

  function Gained(service: string, addresses: seq<Address>, n: string): seq<Address> {
    if n == service then addresses else []
  }

  lemma GainedGrows(service: string, addresses: seq<Address>, a: Address, n: string)
    ensures Gained(service, addresses + [a], n) == Gained(service, addresses, n) + (if service == n then [a] else [])
  {
  }

  lemma {:induction false} AddressesGrow(rows: seq<AddressRow>, service: string, addresses: seq<Address>, n: string)
    ensures AddressesOf(rows + RowsFor(service, addresses), n) == AddressesOf(rows, n) + Gained(service, addresses, n)
  {
    if addresses == [] {
      assert rows + RowsFor(service, addresses) == rows;
      assert Gained(service, addresses, n) == [];
    } else {
      var k := |addresses| - 1;
      LastRowFor(rows, service, addresses[..k], addresses[k]);
      assert addresses == addresses[..k] + [addresses[k]];
      AddressesGrow(rows, service, addresses[..k], n);
      OneMoreAddress(rows + RowsFor(service, addresses[..k]), AddressRow(service, addresses[k]), n);
      GainedGrows(service, addresses[..k], addresses[k], n);
    }
  }

  lemma LastRowFor(rows: seq<AddressRow>, service: string, addresses: seq<Address>, a: Address)
    ensures rows + RowsFor(service, addresses + [a]) == rows + RowsFor(service, addresses) + [AddressRow(service, a)]
  {
  }

  lemma ServiceGives(d: Db, svc: Service)
    requires ServicePut(d, None, svc).Ok?
    ensures svc.name !in d.services
    ensures var e := ServicePut(d, None, svc).value;
      e == d.(services := d.services[svc.name := svc.row], addresses := d.addresses + RowsFor(svc.name, svc.addresses),
              aliases := d.aliases + AllTo(svc.aliases, svc.name), version := e.version)
  {
  }

  lemma {:induction false} ServicesGive(db: Db, svcs: seq<Service>)
    requires db.services == map[] && db.addresses == [] && db.aliases == map[] && ServicesPut(db, svcs).Ok?
    ensures var d := ServicesPut(db, svcs).value;
      d == db.(services := ServiceRows(svcs), addresses := AllRows(svcs), aliases := ServiceAliases(svcs),
               version := d.version)
  {
    if svcs != [] {
      var n := |svcs| - 1;
      ServicesGive(db, svcs[..n]);
      ServiceGives(ServicesPut(db, svcs[..n]).value, svcs[n]);
    }
  }

  predicate NamesDiffer(svcs: seq<Service>) { forall i, j :: 0 <= i < j < |svcs| ==> svcs[i].name != svcs[j].name }

  lemma {:induction false} ServicesDiffer(db: Db, svcs: seq<Service>)
    requires db.services == map[] && db.addresses == [] && db.aliases == map[] && ServicesPut(db, svcs).Ok?
    ensures NamesDiffer(svcs)
  {
    if svcs != [] {
      var n := |svcs| - 1;
      ServicesDiffer(db, svcs[..n]);
      ServicesGive(db, svcs[..n]);
      ServiceGives(ServicesPut(db, svcs[..n]).value, svcs[n]);
      OneMoreName(svcs, n);
    }
  }

  lemma OneMoreName(svcs: seq<Service>, n: nat)
    requires n + 1 == |svcs| && NamesDiffer(svcs[..n]) && svcs[n].name !in ServiceRows(svcs[..n])
    ensures NamesDiffer(svcs)
  {
    RowsHold(svcs[..n]);
    forall i, j | 0 <= i < j < |svcs| ensures svcs[i].name != svcs[j].name {
      assert svcs[..n][i] == svcs[i];
      if j < n { assert svcs[..n][j] == svcs[j]; }
    }
  }

  lemma {:induction false} RowsHold(svcs: seq<Service>)
    ensures forall i :: 0 <= i < |svcs| ==> svcs[i].name in ServiceRows(svcs)
    ensures ServiceRows(svcs).Keys == ServiceAddresses(svcs).Keys
  {
    if svcs != [] { RowsHold(svcs[..|svcs| - 1]); }
  }

  lemma FewerNames(svcs: seq<Service>, n: nat)
    requires NamesDiffer(svcs) && n <= |svcs|
    ensures NamesDiffer(svcs[..n])
  {
    forall i, j | 0 <= i < j < n ensures svcs[..n][i].name != svcs[..n][j].name {
      assert svcs[i].name != svcs[j].name;
    }
  }

  lemma {:induction false} AddressesNamed(svcs: seq<Service>, n: string)
    ensures n in ServiceAddresses(svcs) ==> exists i :: 0 <= i < |svcs| && svcs[i].name == n
  {
    if svcs != [] {
      var k := |svcs| - 1;
      AddressesNamed(svcs[..k], n);
      if n in ServiceAddresses(svcs[..k]) {
        var i :| 0 <= i < k && svcs[..k][i].name == n;
        assert svcs[i].name == n;
      } else if n == svcs[k].name {
        assert svcs[k].name == n;
      }
    }
  }

  lemma LastNameIsNew(svcs: seq<Service>, k: nat)
    requires NamesDiffer(svcs) && k + 1 == |svcs|
    ensures svcs[k].name !in ServiceAddresses(svcs[..k])
  {
    AddressesNamed(svcs[..k], svcs[k].name);
    forall i | 0 <= i < k ensures svcs[..k][i].name != svcs[k].name {
      assert svcs[..k][i] == svcs[i];
    }
  }

  // What a service's addresses are in a table, if it has any.
  function At(m: map<string, seq<Address>>, n: string): seq<Address> { if n in m then m[n] else [] }

  lemma {:induction false} AddressesGiven(svcs: seq<Service>, n: string)
    requires NamesDiffer(svcs)
    ensures AddressesOf(AllRows(svcs), n) == At(ServiceAddresses(svcs), n)
  {
    if svcs != [] {
      var k := |svcs| - 1;
      FewerNames(svcs, k);
      LastNameIsNew(svcs, k);
      AddressesGiven(svcs[..k], n);
      AddressesStep(AllRows(svcs[..k]), ServiceAddresses(svcs[..k]), svcs[k], n);
    }
  }

  lemma AddressesStep(rows: seq<AddressRow>, m: map<string, seq<Address>>, svc: Service, n: string)
    requires svc.name !in m && AddressesOf(rows, n) == At(m, n)
    ensures AddressesOf(rows + RowsFor(svc.name, svc.addresses), n) == At(m[svc.name := svc.addresses], n)
  {
    AddressesGrow(rows, svc.name, svc.addresses, n);
  }

  lemma {:induction false} RecordsGive(db: Db, rs: seq<Record>)
    requires db.records == [] && RecordsPut(db, rs).Ok?
    ensures var d := RecordsPut(db, rs).value;
      d == db.(records := d.records, version := d.version) && RecordsOf(d.records) == rs
  {
    if rs != [] {
      var n := |rs| - 1;
      RecordsGive(db, rs[..n]);
      var d := RecordsPut(db, rs[..n]).value;
      assert RecordsOf(d.records + [RecordRow(NextID(d.records), rs[n])]) == RecordsOf(d.records) + [rs[n]];
      assert rs == rs[..n] + [rs[n]];
    } else {
      assert RecordsOf(db.records) == [];
    }
  }

  // What is left of the registry after it is replaced.
  lemma RegistryGives(db: Db, vs: seq<View>, svcs: seq<Service>, rs: seq<Record>)
    requires RegistryReplaced(db, vs, svcs, rs).Ok?
    ensures var d := RegistryReplaced(db, vs, svcs, rs).value;
      && d.views == ViewNames(vs) && d.subnets == Claims(vs)
      && d.services == ServiceRows(svcs) && d.addresses == AllRows(svcs) && d.aliases == ServiceAliases(svcs)
      && RecordsOf(d.records) == rs
      && d.settings == db.settings && d.blacklist == db.blacklist && d.lists == db.lists && d.rules == db.rules
      && d.node == db.node
    ensures NamesDiffer(svcs)
  {
    var a := Wiped(db);
    ViewsGive(a, vs);
    ServicesGive(ViewsPut(a, vs).value, svcs);
    ServicesDiffer(ViewsPut(a, vs).value, svcs);
    RecordsGive(ServicesPut(ViewsPut(a, vs).value, svcs).value, rs);
  }

  // ----- lists and rules -----

  // Does any incoming entry of this name carry another URL than the one stored?
  predicate Repointed(ls: seq<ListDef>, name: string, url: string) {
    exists l :: l in ls && l.name == name && l.url != url
  }

  // The row a list has once every incoming definition has been written.
  function RowAfter(before: map<string, ListRow>, ls: seq<ListDef>, n: string): ListRow
    requires n in before || n in LastDefs(ls)
  {
    var def := if n in LastDefs(ls) then LastDefs(ls)[n] else before[n].def;
    var body := if n in before && !Repointed(ls, n, before[n].def.url) then before[n].body else NO_BODY;
    ListRow(def, body)
  }

  ghost predicate ListsAre(lists: map<string, ListRow>, before: map<string, ListRow>, ls: seq<ListDef>) {
    && lists.Keys == before.Keys + LastDefs(ls).Keys
    && forall n :: n in lists ==> RowIs(lists, before, ls, n)
  }

  predicate RowIs(lists: map<string, ListRow>, before: map<string, ListRow>, ls: seq<ListDef>, n: string)
    requires n in lists && (n in before || n in LastDefs(ls))
  {
    lists[n] == RowAfter(before, ls, n)
  }

  lemma {:induction false} NamesAreKeys(ls: seq<ListDef>)
    ensures LastDefs(ls).Keys == NamesOf(ls)
  {
    if ls != [] {
      NamesAreKeys(ls[..|ls| - 1]);
      assert ls == ls[..|ls| - 1] + [ls[|ls| - 1]];
      assert NamesOf(ls) == NamesOf(ls[..|ls| - 1]) + {ls[|ls| - 1].name};
    }
  }

  lemma RepointedGrows(ls: seq<ListDef>, l: ListDef, name: string, url: string)
    ensures Repointed(ls + [l], name, url) <==> Repointed(ls, name, url) || (l.name == name && l.url != url)
  {
    if Repointed(ls, name, url) {
      var k :| k in ls && k.name == name && k.url != url;
      assert k in ls + [l];
    }
  }

  lemma RowGrows(before: map<string, ListRow>, ls: seq<ListDef>, l: ListDef, n: string)
    requires n in before || n in LastDefs(ls) || n == l.name
    ensures var grown := RowAfter(before, ls + [l], n);
      if n != l.name then grown == RowAfter(before, ls, n)
      else
        var body := if n !in before || before[n].def.url != l.url then NO_BODY else RowAfter(before, ls, n).body;
        grown == ListRow(l, body)
  {
    assert (ls + [l])[..|ls|] == ls;
    assert LastDefs(ls + [l]) == LastDefs(ls)[l.name := l];
    if n in before { RepointedGrows(ls, l, n, before[n].def.url); }
  }

  // A body stays while the list of that name stays where it downloads from.
  function BodyAfter(before: map<string, ListRow>, now: map<string, ListRow>, l: ListDef): Body {
    if l.name !in before || l.name !in now || before[l.name].def.url != l.url then NO_BODY else now[l.name].body
  }

  lemma ListWritten(d: Db, before: map<string, ListRow>, l: ListDef)
    requires ListApplied(d, before, l).Ok? && before.Keys <= d.lists.Keys
    ensures var e := ListApplied(d, before, l).value;
      && e == d.(lists := e.lists, version := e.version)
      && (l.name in d.lists ==> l.name in before)
      && e.lists == d.lists[l.name := ListRow(l, BodyAfter(before, d.lists, l))]
  {
  }

  lemma ListGives(d: Db, before: map<string, ListRow>, ls: seq<ListDef>, l: ListDef)
    requires ListsAre(d.lists, before, ls) && ListApplied(d, before, l).Ok?
    ensures ListsAre(ListApplied(d, before, l).value.lists, before, ls + [l])
  {
    var e := ListApplied(d, before, l).value;
    ListWritten(d, before, l);
    assert (ls + [l])[..|ls|] == ls;
    assert LastDefs(ls + [l]) == LastDefs(ls)[l.name := l];
    forall n | n in e.lists ensures RowIs(e.lists, before, ls + [l], n) {
      RowGrows(before, ls, l, n);
      if n in d.lists { assert RowIs(d.lists, before, ls, n); }
    }
  }

  lemma {:induction false} ListsGive(db: Db, before: map<string, ListRow>, ls: seq<ListDef>)
    requires db.lists == before && ListsApplied(db, before, ls).Ok?
    ensures var d := ListsApplied(db, before, ls).value;
      d == db.(lists := d.lists, version := d.version) && ListsAre(d.lists, before, ls)
  {
    if ls != [] {
      var n := |ls| - 1;
      ListsGive(db, before, ls[..n]);
      ListWritten(ListsApplied(db, before, ls[..n]).value, before, ls[n]);
      ListGives(ListsApplied(db, before, ls[..n]).value, before, ls[..n], ls[n]);
      assert ls == ls[..n] + [ls[n]];
    }
  }

  lemma {:induction false} RulesGive(db: Db, rs: seq<Rule>)
    requires db.rules == map[] && RulesPut(db, rs).Ok?
    ensures var d := RulesPut(db, rs).value; d == db.(rules := RuleKinds(rs), version := d.version)
  {
    if rs != [] { RulesGive(db, rs[..|rs| - 1]); }
  }

  lemma PrunedGives(d: Db, before: map<string, ListRow>, ls: seq<ListDef>)
    requires ListsAre(d.lists, before, ls)
    ensures var p := ListsPruned(d, before, NamesOf(ls));
      p.lists.Keys == LastDefs(ls).Keys && forall n :: n in p.lists ==> p.lists[n] == RowAfter(before, ls, n)
  {
    NamesAreKeys(ls);
  }

  lemma BlacklistGives(db: Db, b: BlacklistSettings, ls: seq<ListDef>, rs: seq<Rule>)
    requires BlacklistReplaced(db, b, ls, rs).Ok?
    ensures var d := BlacklistReplaced(db, b, ls, rs).value;
      && d == db.(blacklist := b, lists := d.lists, rules := RuleKinds(rs), version := d.version)
      && d.lists.Keys == LastDefs(ls).Keys
      && forall n :: n in d.lists ==> d.lists[n] == RowAfter(db.lists, ls, n)
  {
    var start := BlacklistPut(db, b);
    var d := ListsApplied(start, db.lists, ls).value;
    ListsGive(start, db.lists, ls);
    PrunedGives(d, db.lists, ls);
    RulesGive(RulesWiped(ListsPruned(d, db.lists, NamesOf(ls))), rs);
  }

  // ----- the whole snapshot -----

  // Everything about the result but its version and the numbering of its rows.
  ghost predicate Lands(db: Db, input: Input, d: Db) {
    && d.views == ViewNames(input.views) && d.subnets == Claims(input.views)
    && d.services == ServiceRows(input.services) && d.addresses == AllRows(input.services)
    && d.aliases == ServiceAliases(input.services)
    && RecordsOf(d.records) == input.records
    && d.settings == Some(RowOf(MergedSettings(db, input.settings)))
    && d.blacklist == input.blacklist && d.rules == RuleKinds(input.rules) && d.node == db.node
    && d.lists.Keys == LastDefs(input.lists).Keys
    && forall n :: n in d.lists ==> d.lists[n] == RowAfter(db.lists, input.lists, n)
  }

  lemma SnapshotLands(db: Db, input: Input)
    requires SnapshotApplied(db, input).Ok?
    ensures Lands(db, input, SnapshotApplied(db, input).value)
    ensures NamesDiffer(input.services)
  {
    RegistryGives(db, input.views, input.services, input.records);
    var d := RegistryReplaced(db, input.views, input.services, input.records).value;
    BlacklistGives(SettingsPut(d, MergedSettings(d, input.settings)), input.blacklist, input.lists, input.rules);
  }

  lemma LandedConfig(db: Db, input: Input, d: Db)
    requires Lands(db, input, d)
    requires NamesDiffer(input.services)
    ensures ConfigOf(d) == InputConfig(input)
  {
    RowsHold(input.services);
    forall n | n in d.services ensures AddressesOf(d.addresses, n) == ServiceAddresses(input.services)[n] {
      AddressesGiven(input.services, n);
    }
    assert (map n | n in d.services :: AddressesOf(d.addresses, n)) == ServiceAddresses(input.services);
    assert ListDefs(d.lists) == LastDefs(input.lists);
  }

  // What is shared afterwards is exactly what the snapshot describes, whatever was
  // there before.
  lemma ApplyGivesTheSnapshot(db: Db, input: Input)
    requires SnapshotApplied(db, input).Ok?
    ensures ConfigOf(SnapshotApplied(db, input).value) == InputConfig(input)
  {
    SnapshotLands(db, input);
    LandedConfig(db, input, SnapshotApplied(db, input).value);
  }

  // The twelve columns of this node's own, and its bookkeeping, stay; the incoming ones
  // are taken only where there was no row at all.
  lemma ApplyKeepsLocalColumns(db: Db, input: Input)
    requires SnapshotApplied(db, input).Ok?
    ensures var row := SnapshotApplied(db, input).value.settings;
      && row.Some?
      && row.value.local == (if db.settings.Some? then db.settings.value.local else input.settings.local)
      && row.value.dhcp == (if db.settings.Some? then db.settings.value.dhcp else input.settings.dhcp)
    ensures SnapshotApplied(db, input).value.node == db.node
  {
    SnapshotLands(db, input);
  }

  // A download survives exactly when its list is still named and no incoming entry of
  // that name carries another URL; one that never was is empty.
  lemma BodyKeptExactly(db: Db, input: Input, n: string)
    requires SnapshotApplied(db, input).Ok?
    ensures var lists := SnapshotApplied(db, input).value.lists;
      && (n in lists <==> exists l :: l in input.lists && l.name == n)
      && (n in lists ==>
          lists[n].body == if n in db.lists && !Repointed(input.lists, n, db.lists[n].def.url) then db.lists[n].body
            else NO_BODY)
  {
    SnapshotLands(db, input);
    NamesAreKeys(input.lists);
    assert n in NamesOf(input.lists) <==> exists l :: l in input.lists && l.name == n;
  }

  // ----- a second time -----

  // The same but for the version and the numbering of rows.
  predicate Alike(a: Db, b: Db) {
    a.(version := b.version, records := b.records) == b && RecordsOf(a.records) == RecordsOf(b.records)
  }

  lemma {:induction false} LastOfName(ls: seq<ListDef>, n: string)
    requires n in LastDefs(ls)
    ensures LastDefs(ls)[n] in ls && LastDefs(ls)[n].name == n
  {
    if ls[|ls| - 1].name != n { LastOfName(ls[..|ls| - 1], n); }
  }

  // Whether the registry part is accepted is a matter of the snapshot alone.
  lemma {:induction false} ViewsAgree(a: Db, b: Db, vs: seq<View>)
    requires a.views == b.views && a.subnets == b.subnets && ViewsPut(a, vs).Ok?
    ensures ViewsPut(b, vs).Ok?
    ensures ViewsPut(a, vs).value.views == ViewsPut(b, vs).value.views
      && ViewsPut(a, vs).value.subnets == ViewsPut(b, vs).value.subnets
  {
    if vs != [] { ViewsAgree(a, b, vs[..|vs| - 1]); }
  }

  predicate SameServices(a: Db, b: Db) {
    a.views == b.views && a.services == b.services && a.addresses == b.addresses && a.aliases == b.aliases
  }

  lemma {:induction false} ServicesAgree(a: Db, b: Db, svcs: seq<Service>)
    requires SameServices(a, b) && ServicesPut(a, svcs).Ok?
    ensures ServicesPut(b, svcs).Ok? && SameServices(ServicesPut(a, svcs).value, ServicesPut(b, svcs).value)
  {
    if svcs != [] {
      var n := |svcs| - 1;
      ServicesAgree(a, b, svcs[..n]);
      ServiceAgrees(ServicesPut(a, svcs[..n]).value, ServicesPut(b, svcs[..n]).value, svcs[n]);
    }
  }

  lemma ServiceAgrees(a: Db, b: Db, svc: Service)
    requires SameServices(a, b) && ServicePut(a, None, svc).Ok?
    ensures ServicePut(b, None, svc).Ok? && SameServices(ServicePut(a, None, svc).value, ServicePut(b, None, svc).value)
  {
  }

  lemma {:induction false} RecordsAgree(a: Db, b: Db, rs: seq<Record>)
    requires a.views == b.views && RecordsPut(a, rs).Ok?
    ensures RecordsPut(b, rs).Ok? && RecordsPut(a, rs).value.views == RecordsPut(b, rs).value.views == a.views
  {
    if rs != [] { RecordsAgree(a, b, rs[..|rs| - 1]); }
  }

  lemma RegistryAgrees(a: Db, b: Db, vs: seq<View>, svcs: seq<Service>, rs: seq<Record>)
    requires RegistryReplaced(a, vs, svcs, rs).Ok?
    ensures RegistryReplaced(b, vs, svcs, rs).Ok?
  {
    var a1, b1 := Wiped(a), Wiped(b);
    ViewsAgree(a1, b1, vs);
    var a2, b2 := ViewsPut(a1, vs).value, ViewsPut(b1, vs).value;
    ViewsGive(a1, vs);
    ViewsGive(b1, vs);
    ServicesAgree(a2, b2, svcs);
    RecordsAgree(ServicesPut(a2, svcs).value, ServicesPut(b2, svcs).value, rs);
  }

  lemma {:induction false} KnownListsApply(db: Db, before: map<string, ListRow>, ls: seq<ListDef>)
    requires db.lists == before && forall l :: l in ls ==> l.name in before
    ensures ListsApplied(db, before, ls).Ok?
  {
    if ls != [] { KnownListsApply(db, before, ls[..|ls| - 1]); }
  }

  lemma {:induction false} RulesAgree(a: Db, b: Db, rs: seq<Rule>)
    requires a.rules == b.rules && RulesPut(a, rs).Ok?
    ensures RulesPut(b, rs).Ok? && RulesPut(a, rs).value.rules == RulesPut(b, rs).value.rules
  {
    if rs != [] { RulesAgree(a, b, rs[..|rs| - 1]); }
  }

  lemma BlacklistAgrees(a: Db, b: Db, policy: BlacklistSettings, ls: seq<ListDef>, rs: seq<Rule>)
    requires BlacklistReplaced(a, policy, ls, rs).Ok? && forall l :: l in ls ==> l.name in b.lists
    ensures BlacklistReplaced(b, policy, ls, rs).Ok?
  {
    var b1 := BlacklistPut(b, policy);
    KnownListsApply(b1, b.lists, ls);
    var a2 := RulesWiped(ListsPruned(ListsApplied(BlacklistPut(a, policy), a.lists, ls).value, a.lists, NamesOf(ls)));
    var b2 := RulesWiped(ListsPruned(ListsApplied(b1, b.lists, ls).value, b.lists, NamesOf(ls)));
    RulesAgree(a2, b2, rs);
  }

  lemma AcceptedAgain(db: Db, input: Input)
    requires SnapshotApplied(db, input).Ok?
    ensures SnapshotApplied(SnapshotApplied(db, input).value, input).Ok?
  {
    var a := SnapshotApplied(db, input).value;
    SnapshotLands(db, input);
    NamesAreKeys(input.lists);
    RegistryAgrees(db, a, input.views, input.services, input.records);
    RegistryGives(a, input.views, input.services, input.records);
    var d := RegistryReplaced(db, input.views, input.services, input.records).value;
    var e := RegistryReplaced(a, input.views, input.services, input.records).value;
    BlacklistAgrees(SettingsPut(d, MergedSettings(d, input.settings)),
                    SettingsPut(e, MergedSettings(e, input.settings)),
                    input.blacklist, input.lists, input.rules);
  }

  lemma LandsTwice(db: Db, input: Input, a: Db, b: Db)
    requires Lands(db, input, a) && Lands(a, input, b)
    ensures Alike(b, a)
  {
    forall n | n in a.lists ensures b.lists[n] == a.lists[n] { BodySettles(db, input, a, n); }
    assert b.lists == a.lists;
    assert b.settings == a.settings;
  }

  // A snapshot that was accepted is accepted again, and then changes neither the
  // configuration nor any of this node's own state, downloads included.
  lemma ApplyIsIdempotent(db: Db, input: Input)
    requires SnapshotApplied(db, input).Ok?
    ensures var a := SnapshotApplied(db, input).value;
      SnapshotApplied(a, input).Ok? && Alike(SnapshotApplied(a, input).value, a)
  {
    var a := SnapshotApplied(db, input).value;
    AcceptedAgain(db, input);
    SnapshotLands(db, input);
    SnapshotLands(a, input);
    LandsTwice(db, input, a, SnapshotApplied(a, input).value);
  }

  lemma BodySettles(db: Db, input: Input, a: Db, n: string)
    requires Lands(db, input, a) && n in a.lists
    ensures RowAfter(a.lists, input.lists, n) == a.lists[n]
  {
    LastOfName(input.lists, n);
    assert a.lists[n] == RowAfter(db.lists, input.lists, n);
  }
}
