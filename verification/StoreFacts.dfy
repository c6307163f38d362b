/** The version moves for exactly the writes replicas must hear about. */
module StoreFacts {
  import opened Wrappers
  import opened Tables
  import ZoneRename
  import RenamedAnswers
  import Texts

  // ----- list columns -----

  lemma TextSurvives(s: string)
    ensures PackList(UnpackList(s)) == s
  {
    Texts.JoinSplit(s, '\n');
  }

  // What is stored survives being read and written back, text for text.
  lemma StoredTextSurvives(row: Settings<string>)
    ensures RowOf(ValueOf(row)) == row
  {
    TextSurvives(row.shared.reverseZones);
    TextSurvives(row.shared.upstreams);
    TextSurvives(row.shared.allowQuery);
  }

  predicate NoBreak(s: string) { '\n' !in s }

  lemma JoinedEmpty(v: seq<string>)
    requires v != [] && Texts.Join(v, '\n') == ""
    ensures v == [""]
  {
  }

  // A list comes back from the database as it went in exactly when it is nil, or has
  // entries, none of them with a line break and not only one that is empty.
  lemma ListSurvivesExactly(v: Strings)
    ensures UnpackList(PackList(v)) == v <==>
      v.Nil? || (v.items != [] && v.items != [""] && forall x :: x in v.items ==> NoBreak(x))
  {
    if v.Items? && v.items != [] {
      Texts.PiecesArePlain(PackList(v), '\n');
      if forall x :: x in v.items ==> NoBreak(x) { Texts.SplitJoin(v.items, '\n'); }
      if PackList(v) == "" { JoinedEmpty(v.items); }
    }
  }

  // ----- bumps, table by table -----

  lemma BumpsChain(a: Db, b: Db, c: Db)
    requires Bumps(a, b) && Bumps(b, c)
    ensures Bumps(a, c)
  {
  }

  lemma ViewPutBumps(db: Db, v: View)
    requires ViewPut(db, v).Ok?
    ensures Bumps(db, ViewPut(db, v).value)
  {
    if ViewPut(db, v).value.version == db.version {
      assert OwnedBy(db.subnets, v.name) == {};
      assert db.views + {v.name} == db.views;
      assert v.subnets == [];
      assert db.subnets - {} + AllTo([], v.name) == db.subnets;
    }
  }

  lemma {:induction false} WithoutSame(rows: seq<AddressRow>, service: string)
    requires |Without(rows, service)| == |rows|
    ensures Without(rows, service) == rows
  {
    if rows != [] {
      assert |Without(rows[..|rows| - 1], service)| <= |rows| - 1;
      WithoutSame(rows[..|rows| - 1], service);
      assert rows == rows[..|rows| - 1] + [rows[|rows| - 1]];
    }
  }

  lemma ServicePutBumps(db: Db, handle: Option<string>, svc: Service)
    requires ServicePut(db, handle, svc).Ok?
    ensures Bumps(db, ServicePut(db, handle, svc).value)
  {
  }

  lemma {:induction false} NoneCounted(rows: seq<RecordRow>, p: Record -> bool, n: nat)
    requires n <= |rows| && Counted(rows, p, n) == 0
    ensures forall i :: 0 <= i < n ==> !p(rows[i].record)
  {
    if n > 0 { NoneCounted(rows, p, n - 1); }
  }

  lemma NoneMoved(rows: seq<RecordRow>, from: string, to: string)
    requires Counted(rows, Mover(from, to), |rows|) == 0
    ensures MovedRows(rows, from, to) == rows
  {
    NoneCounted(rows, Mover(from, to), |rows|);
    forall i | 0 <= i < |rows| ensures MovedRows(rows, from, to)[i] == rows[i] {
      assert !Mover(from, to)(rows[i].record);
      UnmovedIsSame(rows[i].record, from, to);
    }
  }

  lemma UnmovedIsSame(r: Record, from: string, to: string)
    requires !Moves(r, from, to)
    ensures RenamedAnswers.MoveRecord(r, from, to) == r
  {
  }

  lemma SettingsPutBumps(db: Db, v: Settings<Strings>)
    ensures Bumps(db, SettingsPut(db, v))
  {
  }

  lemma ZoneRenamedBumps(db: Db, v: Settings<Strings>, from: string, to: string)
    ensures Bumps(db, ZoneRenamed(db, v, from, to))
  {
    var a, b := ZoneRename.ZoneSuffix(from), ZoneRename.ZoneSuffix(to);
    SettingsPutBumps(db, v);
    var d := SettingsPut(db, v);
    assert d.records == db.records;
    if Counted(d.records, Mover(a, b), |d.records|) == 0 {
      NoneMoved(d.records, a, b);
      assert ZoneRenamed(db, v, from, to) == d;
    }
  }

  lemma ListDefsFrame(lists: map<string, ListRow>, name: string, row: ListRow)
    requires name in lists && row.def == lists[name].def
    ensures ListDefs(lists[name := row]) == ListDefs(lists)
  {
  }

  lemma ListPutBumps(db: Db, handle: Option<string>, l: ListDef)
    requires ListPut(db, handle, l).Ok?
    requires forall n :: n in db.lists ==> db.lists[n].def.name == n
    ensures Bumps(db, ListPut(db, handle, l).value)
  {
    if handle.Some? && l.(builtin := db.lists[handle.value].def.builtin) == db.lists[handle.value].def {
      var h := handle.value;
      assert l.name == h;
      assert (db.lists - {h})[h := db.lists[h]] == db.lists;
    }
  }

  lemma BodyIsQuiet(db: Db, name: string, body: Body)
    requires name in db.lists
    ensures Quiet(db, WithBody(db, name, body))
  {
    ListDefsFrame(db.lists, name, db.lists[name].(body := body));
  }

  // ----- bumps of the large transactions -----

  lemma WipedBumps(db: Db)
    ensures Bumps(db, Wiped(db))
  {
    if Wiped(db).version == db.version {
      assert db.records == [] && db.addresses == [];
      assert db.aliases == map[] && db.services == map[] && db.subnets == map[] && db.views == {};
    }
  }

  lemma {:induction false} ViewsPutBumps(db: Db, vs: seq<View>)
    requires ViewsPut(db, vs).Ok?
    ensures Bumps(db, ViewsPut(db, vs).value)
  {
    if vs != [] {
      ViewsPutBumps(db, vs[..|vs| - 1]);
      ViewPutBumps(ViewsPut(db, vs[..|vs| - 1]).value, vs[|vs| - 1]);
    }
  }

  lemma {:induction false} ServicesPutBumps(db: Db, svcs: seq<Service>)
    requires ServicesPut(db, svcs).Ok?
    ensures Bumps(db, ServicesPut(db, svcs).value)
  {
    if svcs != [] {
      ServicesPutBumps(db, svcs[..|svcs| - 1]);
      ServicePutBumps(ServicesPut(db, svcs[..|svcs| - 1]).value, None, svcs[|svcs| - 1]);
    }
  }

  lemma {:induction false} RecordsPutBumps(db: Db, rs: seq<Record>)
    requires RecordsPut(db, rs).Ok?
    ensures Bumps(db, RecordsPut(db, rs).value)
  {
    if rs != [] { RecordsPutBumps(db, rs[..|rs| - 1]); }
  }

  lemma RegistryBumps(db: Db, vs: seq<View>, svcs: seq<Service>, rs: seq<Record>)
    requires RegistryReplaced(db, vs, svcs, rs).Ok?
    ensures Bumps(db, RegistryReplaced(db, vs, svcs, rs).value)
  {
    var a := Wiped(db);
    var b := ViewsPut(a, vs).value;
    var c := ServicesPut(b, svcs).value;
    WipedBumps(db);
    ViewsPutBumps(a, vs);
    ServicesPutBumps(b, svcs);
    RecordsPutBumps(c, rs);
    BumpsChain(db, a, b);
    BumpsChain(db, b, c);
    BumpsChain(db, c, RecordsPut(c, rs).value);
  }

  lemma {:induction false} ListsAppliedRise(db: Db, before: map<string, ListRow>, ls: seq<ListDef>)
    requires ListsApplied(db, before, ls).Ok?
    ensures ListsApplied(db, before, ls).value.version >= db.version
  {
    if ls != [] { ListsAppliedRise(db, before, ls[..|ls| - 1]); }
  }

  lemma {:induction false} RulesPutRise(db: Db, rs: seq<Rule>)
    requires RulesPut(db, rs).Ok?
    ensures RulesPut(db, rs).value.version >= db.version
  {
    if rs != [] { RulesPutRise(db, rs[..|rs| - 1]); }
  }

  lemma PrunedRises(d: Db, before: map<string, ListRow>, incoming: set<string>)
    ensures RulesWiped(ListsPruned(d, before, incoming)).version >= d.version
  {
  }

  lemma BlacklistRises(db: Db, b: BlacklistSettings, ls: seq<ListDef>, rs: seq<Rule>)
    requires BlacklistReplaced(db, b, ls, rs).Ok?
    ensures BlacklistReplaced(db, b, ls, rs).value.version > db.version
  {
    var start := BlacklistPut(db, b);
    var d := ListsApplied(start, db.lists, ls).value;
    ListsAppliedRise(start, db.lists, ls);
    PrunedRises(d, db.lists, NamesOf(ls));
    RulesPutRise(RulesWiped(ListsPruned(d, db.lists, NamesOf(ls))), rs);
  }

  lemma {:induction false} ListsImportedRise(db: Db, kept: map<string, Body>, ls: seq<ListDef>)
    requires ListsImported(db, kept, ls).Ok?
    ensures ListsImported(db, kept, ls).value.version >= db.version
  {
    if ls != [] { ListsImportedRise(db, kept, ls[..|ls| - 1]); }
  }

  lemma PolicyRises(db: Db, kept: map<string, Body>, b: BlacklistSettings, ls: seq<ListDef>, rs: seq<Rule>)
    requires PolicyImported(db, kept, b, ls, rs).Ok?
    ensures PolicyImported(db, kept, b, ls, rs).value.version > db.version
  {
    var start := BlacklistPut(PolicyWiped(db), b);
    ListsImportedRise(start, kept, ls);
    RulesPutRise(ListsImported(start, kept, ls).value, rs);
  }

  // Applying a snapshot always raises this node's own version.
  lemma SnapshotRises(db: Db, input: Input)
    requires SnapshotApplied(db, input).Ok?
    ensures SnapshotApplied(db, input).value.version > db.version
  {
    var d := RegistryReplaced(db, input.views, input.services, input.records).value;
    RegistryBumps(db, input.views, input.services, input.records);
    BlacklistRises(SettingsPut(d, MergedSettings(d, input.settings)), input.blacklist, input.lists, input.rules);
  }

  // ----- every write -----

  // A list sits under its own name.
  ghost predicate Named(db: Db) { forall n :: n in db.lists ==> db.lists[n].def.name == n }

  lemma RowWritesBump(db: Db, w: Write)
    requires w.DeleteView? || w.DeleteService? || w.PutRecord? || w.DeleteRecord?
    ensures Bumps(db, After(db, w))
  {
  }

  lemma PolicyWritesBump(db: Db, w: Write)
    requires w.SetBlacklistSettings? || w.DeleteBlacklistList? || w.PutBlacklistRule? || w.DeleteBlacklistRule?
    ensures Bumps(db, After(db, w))
  {
  }

  // A write that changes what replicas share raises the version with it; the version
  // never goes back, and a failed write moves neither.
  lemma EveryWriteBumps(db: Db, w: Write)
    requires Named(db)
    ensures Bumps(db, After(db, w))
  {
    if NodeOnly(w) {
      NodeWritesAreQuiet(db, w);
    } else if w.DeleteView? || w.DeleteService? || w.PutRecord? || w.DeleteRecord? {
      RowWritesBump(db, w);
    } else if w.SetBlacklistSettings? || w.DeleteBlacklistList? || w.PutBlacklistRule? || w.DeleteBlacklistRule? {
      PolicyWritesBump(db, w);
    } else if Perform(db, w).Ok? {
      BigWritesBump(db, w);
    }
  }

  lemma BigWritesBump(db: Db, w: Write)
    requires Named(db) && Perform(db, w).Ok?
    requires w.PutView? || w.PutService? || w.ReplaceAll? || w.PutSettings? || w.PutSettingsRenamingZone?
      || w.PutBlacklistList?
      || w.ReplaceBlacklist? || w.ApplySnapshot?
    ensures Bumps(db, After(db, w))
  {
    if w.PutView? || w.PutService? || w.ReplaceAll? {
      RegistryWritesBump(db, w);
    } else if w.PutSettings? {
      SettingsPutBumps(db, w.settings);
    } else if w.PutSettingsRenamingZone? {
      ZoneRenamedBumps(db, w.settings, w.from, w.to);
    } else if w.PutBlacklistList? {
      ListPutBumps(db, w.handle, w.def);
    } else {
      WholePolicyBumps(db, w);
    }
  }

  lemma RegistryWritesBump(db: Db, w: Write)
    requires (w.PutView? || w.PutService? || w.ReplaceAll?) && Perform(db, w).Ok?
    ensures Bumps(db, After(db, w))
  {
    if w.PutView? {
      ViewPutBumps(db, w.view);
    } else if w.PutService? {
      ServicePutBumps(db, w.handle, w.service);
    } else {
      RegistryBumps(db, w.views, w.services, w.records);
    }
  }

  lemma WholePolicyBumps(db: Db, w: Write)
    requires (w.ReplaceBlacklist? || w.ApplySnapshot?) && Perform(db, w).Ok?
    ensures Bumps(db, After(db, w))
  {
    if w.ReplaceBlacklist? {
      PolicyRises(db, w.kept, w.blacklist, w.lists, w.rules);
    } else {
      SnapshotRises(db, w.input);
    }
  }

  // A write to node-local columns only leaves the version, and what is shared, alone.
  lemma NodeWritesAreQuiet(db: Db, w: Write)
    requires NodeOnly(w)
    ensures Quiet(db, After(db, w))
  {
    if w.SetBlacklistSnapshot? || w.SetBlacklistError? || w.TouchBlacklistAttempt? { RefreshIsQuiet(db, w); }
  }

  lemma RefreshIsQuiet(db: Db, w: Write)
    requires w.SetBlacklistSnapshot? || w.SetBlacklistError? || w.TouchBlacklistAttempt?
    ensures Quiet(db, After(db, w))
  {
    if w.name in db.lists {
      assert After(db, w) == WithBody(db, w.name, After(db, w).lists[w.name].body);
      BodyIsQuiet(db, w.name, After(db, w).lists[w.name].body);
    }
  }

  lemma {:induction false} ListsAppliedNamed(db: Db, before: map<string, ListRow>, ls: seq<ListDef>)
    requires Named(db) && ListsApplied(db, before, ls).Ok?
    ensures Named(ListsApplied(db, before, ls).value)
  {
    if ls != [] { ListsAppliedNamed(db, before, ls[..|ls| - 1]); }
  }

  predicate KeepsLists(a: Db, b: Db) { a.lists == b.lists }

  lemma {:induction false} ViewsPutKeepLists(db: Db, vs: seq<View>)
    requires ViewsPut(db, vs).Ok?
    ensures KeepsLists(db, ViewsPut(db, vs).value)
  {
    if vs != [] { ViewsPutKeepLists(db, vs[..|vs| - 1]); }
  }

  lemma {:induction false} ServicesPutKeepLists(db: Db, svcs: seq<Service>)
    requires ServicesPut(db, svcs).Ok?
    ensures KeepsLists(db, ServicesPut(db, svcs).value)
  {
    if svcs != [] { ServicesPutKeepLists(db, svcs[..|svcs| - 1]); }
  }

  lemma {:induction false} RecordsPutKeepLists(db: Db, rs: seq<Record>)
    requires RecordsPut(db, rs).Ok?
    ensures KeepsLists(db, RecordsPut(db, rs).value)
  {
    if rs != [] { RecordsPutKeepLists(db, rs[..|rs| - 1]); }
  }

  lemma {:induction false} RulesPutKeepLists(db: Db, rs: seq<Rule>)
    requires RulesPut(db, rs).Ok?
    ensures KeepsLists(db, RulesPut(db, rs).value)
  {
    if rs != [] { RulesPutKeepLists(db, rs[..|rs| - 1]); }
  }

  lemma RegistryKeepsLists(db: Db, vs: seq<View>, svcs: seq<Service>, rs: seq<Record>)
    requires RegistryReplaced(db, vs, svcs, rs).Ok?
    ensures KeepsLists(db, RegistryReplaced(db, vs, svcs, rs).value)
  {
    ViewsPutKeepLists(Wiped(db), vs);
    ServicesPutKeepLists(ViewsPut(Wiped(db), vs).value, svcs);
    RecordsPutKeepLists(ServicesPut(ViewsPut(Wiped(db), vs).value, svcs).value, rs);
  }

  lemma SnapshotNamed(db: Db, input: Input)
    requires Named(db) && SnapshotApplied(db, input).Ok?
    ensures Named(SnapshotApplied(db, input).value)
  {
    RegistryKeepsLists(db, input.views, input.services, input.records);
    var d := RegistryReplaced(db, input.views, input.services, input.records).value;
    var s := SettingsPut(d, MergedSettings(d, input.settings));
    var b := BlacklistPut(s, input.blacklist);
    ListsAppliedNamed(b, s.lists, input.lists);
    var p := ListsPruned(ListsApplied(b, s.lists, input.lists).value, s.lists, NamesOf(input.lists));
    RulesPutKeepLists(RulesWiped(p), input.rules);
  }

  lemma {:induction false} ListsImportedFrame(db: Db, kept: map<string, Body>, ls: seq<ListDef>)
    requires ListsImported(db, kept, ls).Ok?
    ensures var d := ListsImported(db, kept, ls).value; d == db.(lists := d.lists, version := d.version)
  {
    if ls != [] { ListsImportedFrame(db, kept, ls[..|ls| - 1]); }
  }

  lemma {:induction false} RulesPutFrame(db: Db, rs: seq<Rule>)
    requires RulesPut(db, rs).Ok?
    ensures var d := RulesPut(db, rs).value; d == db.(rules := d.rules, version := d.version)
  {
    if rs != [] { RulesPutFrame(db, rs[..|rs| - 1]); }
  }

  // An import writes the policy tables and nothing else.
  lemma PolicyFrame(db: Db, kept: map<string, Body>, b: BlacklistSettings, ls: seq<ListDef>, rs: seq<Rule>)
    requires PolicyImported(db, kept, b, ls, rs).Ok?
    ensures var d := PolicyImported(db, kept, b, ls, rs).value;
      d == db.(blacklist := b, lists := d.lists, rules := d.rules, version := d.version)
  {
    var start := BlacklistPut(PolicyWiped(db), b);
    ListsImportedFrame(start, kept, ls);
    RulesPutFrame(ListsImported(start, kept, ls).value, rs);
  }

  lemma {:induction false} ListsImportedGive(db: Db, kept: map<string, Body>, ls: seq<ListDef>)
    requires db.lists == map[] && ListsImported(db, kept, ls).Ok?
    ensures Imported(ListsImported(db, kept, ls).value.lists, kept, ls)
  {
    if ls != [] {
      ListsImportedGive(db, kept, ls[..|ls| - 1]);
      var d := ListsImported(db, kept, ls[..|ls| - 1]).value;
      assert ls == ls[..|ls| - 1] + [ls[|ls| - 1]];
      OneMoreImported(d.lists, kept, ls[..|ls| - 1], ls[|ls| - 1]);
    }
  }

  ghost predicate Imported(lists: map<string, ListRow>, kept: map<string, Body>, ls: seq<ListDef>) {
    lists.Keys == NamesOf(ls) && forall l :: l in ls ==> lists[l.name] == ListRow(l, KeptBody(kept, l.url))
  }

  lemma OneMoreImported(lists: map<string, ListRow>, kept: map<string, Body>, ls: seq<ListDef>, l: ListDef)
    requires Imported(lists, kept, ls) && l.name !in lists
    ensures Imported(lists[l.name := ListRow(l, KeptBody(kept, l.url))], kept, ls + [l])
  {
    forall m | m in ls ensures m.name in NamesOf(ls) {}
    assert NamesOf(ls + [l]) == NamesOf(ls) + {l.name};
  }

  lemma PolicyLists(db: Db, kept: map<string, Body>, b: BlacklistSettings, ls: seq<ListDef>, rs: seq<Rule>)
    requires PolicyImported(db, kept, b, ls, rs).Ok?
    ensures Imported(PolicyImported(db, kept, b, ls, rs).value.lists, kept, ls)
  {
    var start := BlacklistPut(PolicyWiped(db), b);
    ListsImportedGive(start, kept, ls);
    RulesPutKeepLists(ListsImported(start, kept, ls).value, rs);
  }

  lemma PolicyNamed(db: Db, kept: map<string, Body>, b: BlacklistSettings, ls: seq<ListDef>, rs: seq<Rule>)
    requires PolicyImported(db, kept, b, ls, rs).Ok?
    ensures Named(PolicyImported(db, kept, b, ls, rs).value)
  {
    PolicyLists(db, kept, b, ls, rs);
  }

  // What is read before the import: for every address some list's body, as it was, and
  // nothing for any other.
  predicate BodiesOf(lists: map<string, ListRow>, kept: map<string, Body>) {
    && (forall n :: n in lists ==> lists[n].def.url in kept)
    && (forall u :: u in kept ==> exists n :: n in lists && lists[n].def.url == u && lists[n].body == kept[u])
  }

  // What some list has downloaded from this address, its last error forgotten.
  predicate DownloadOf(lists: map<string, ListRow>, url: string, body: Body) {
    exists n :: n in lists && lists[n].def.url == url && lists[n].body.(error := "") == body
  }

  // An import leaves exactly the lists it names, each with what some list had downloaded
  // from its address when the bodies were read, under whatever name, and empty where none
  // had. The tables may have moved on before the transaction begins: a download that lands
  // between is not among what is kept.
  lemma ImportKeepsDownloads(read: map<string, ListRow>, db: Db, kept: map<string, Body>, b: BlacklistSettings,
                             ls: seq<ListDef>, rs: seq<Rule>, l: ListDef)
    requires BodiesOf(read, kept) && l in ls && PolicyImported(db, kept, b, ls, rs).Ok?
    ensures var after := PolicyImported(db, kept, b, ls, rs).value;
      && after.lists.Keys == NamesOf(ls) && after.lists[l.name].def == l
      && if exists n :: n in read && read[n].def.url == l.url
         then DownloadOf(read, l.url, after.lists[l.name].body)
         else after.lists[l.name].body == NO_BODY
  {
    PolicyLists(db, kept, b, ls, rs);
  }

  predicate WritesLists(w: Write) {
    || w.PutBlacklistList? || w.DeleteBlacklistList? || w.SetBlacklistSnapshot? || w.SetBlacklistError?
    || w.TouchBlacklistAttempt? || w.ReplaceBlacklist? || w.ApplySnapshot?
  }

  predicate WritesRegistry(w: Write) { w.PutView? || w.PutService? || w.PutRecord? || w.ReplaceAll? }

  lemma RegistryWritesKeepLists(db: Db, w: Write)
    requires WritesRegistry(w)
    ensures KeepsLists(db, After(db, w))
  {
    if w.ReplaceAll? {
      ReplaceAllKeepsLists(db, w.views, w.services, w.records);
    } else if w.PutView? {
      ViewPutKeepsLists(db, w.view);
    } else if w.PutService? {
      ServicePutKeepsLists(db, w.handle, w.service);
    } else {
      RecordPutKeepsLists(db, w.record);
    }
  }

  lemma ReplaceAllKeepsLists(db: Db, vs: seq<View>, svcs: seq<Service>, rs: seq<Record>)
    ensures RegistryReplaced(db, vs, svcs, rs).Ok? ==> KeepsLists(db, RegistryReplaced(db, vs, svcs, rs).value)
  {
    if RegistryReplaced(db, vs, svcs, rs).Ok? { RegistryKeepsLists(db, vs, svcs, rs); }
  }

  lemma RecordPutKeepsLists(db: Db, r: Record)
    ensures RecordPut(db, r).Ok? ==> KeepsLists(db, RecordPut(db, r).value)
  {
  }

  lemma ViewPutKeepsLists(db: Db, v: View)
    ensures ViewPut(db, v).Ok? ==> KeepsLists(db, ViewPut(db, v).value)
  {
  }

  lemma ServicePutKeepsLists(db: Db, handle: Option<string>, svc: Service)
    ensures ServicePut(db, handle, svc).Ok? ==> KeepsLists(db, ServicePut(db, handle, svc).value)
  {
  }

  lemma OtherWritesKeepLists(db: Db, w: Write)
    requires !WritesLists(w)
    ensures KeepsLists(db, After(db, w))
  {
    if WritesRegistry(w) { RegistryWritesKeepLists(db, w); }
  }

  lemma ListPutKeepsNames(db: Db, handle: Option<string>, l: ListDef)
    requires Named(db) && ListPut(db, handle, l).Ok?
    ensures Named(ListPut(db, handle, l).value)
  {
  }

  lemma RefreshKeepsNames(db: Db, w: Write)
    requires Named(db) && (w.SetBlacklistSnapshot? || w.SetBlacklistError? || w.TouchBlacklistAttempt?)
    ensures Named(After(db, w))
  {
    RefreshIsQuiet(db, w);
    assert ListDefs(After(db, w).lists) == ListDefs(db.lists);
    forall n | n in After(db, w).lists ensures After(db, w).lists[n].def.name == n {
      assert ListDefs(After(db, w).lists)[n] == ListDefs(db.lists)[n];
    }
  }

  lemma EveryWriteKeepsNames(db: Db, w: Write)
    requires Named(db)
    ensures Named(After(db, w))
  {
    if !WritesLists(w) {
      OtherWritesKeepLists(db, w);
    } else {
      match w
      case PutBlacklistList(h, l) => if ListPut(db, h, l).Ok? { ListPutKeepsNames(db, h, l); }
      case DeleteBlacklistList(_) =>
      case ReplaceBlacklist(kept, b, ls, rs) => if PolicyImported(db, kept, b, ls, rs).Ok? {
        PolicyNamed(db, kept, b, ls, rs);
      }
      case ApplySnapshot(input) => if SnapshotApplied(db, input).Ok? { SnapshotNamed(db, input); }
      case _ => RefreshKeepsNames(db, w);
    }
  }
}
