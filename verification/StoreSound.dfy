/** No row refers to one that is gone: what the foreign keys promise, kept by every write. */
module StoreSound {
  import opened Wrappers
  import opened Tables
  import opened StoreFacts
  import SnapshotReads
  import ZoneRename

  ghost predicate SubnetsSound(db: Db) { forall c :: c in db.subnets ==> db.subnets[c] in db.views }

  ghost predicate AliasesSound(db: Db) { forall a :: a in db.aliases ==> db.aliases[a] in db.services }

  ghost predicate AddressesSound(db: Db) {
    forall r :: r in db.addresses ==> r.service in db.services && ViewKnown(db, r.address.view)
  }

  ghost predicate RecordsSound(db: Db) { forall r :: r in db.records ==> ViewKnown(db, r.record.view) }

  ghost predicate Sound(db: Db) {
    SubnetsSound(db) && AliasesSound(db) && AddressesSound(db) && RecordsSound(db) && Named(db)
  }

  lemma {:induction false} AddressesAreRows(rows: seq<AddressRow>, service: string, a: Address)
    requires a in AddressesOf(rows, service)
    ensures AddressRow(service, a) in rows
  {
    var n := |rows| - 1;
    assert rows == rows[..n] + [rows[n]];
    if a in AddressesOf(rows[..n], service) { AddressesAreRows(rows[..n], service, a); }
  }

  // A sound database shares a sound configuration.
  lemma SoundConfig(db: Db)
    requires Sound(db)
    ensures SnapshotReads.Sound(ConfigOf(db)) && ConfigOf(db).addresses.Keys == ConfigOf(db).services.Keys
  {
    var cfg := ConfigOf(db);
    forall n, a | n in cfg.addresses && a in cfg.addresses[n] ensures SnapshotReads.Known(cfg, a.view) {
      AddressesAreRows(db.addresses, n, a);
    }
    forall r | r in cfg.records ensures SnapshotReads.Known(cfg, r.view) {
      assert r in RecordsOf(db.records);
      var i :| 0 <= i < |db.records| && RecordsOf(db.records)[i] == r;
      assert db.records[i] in db.records;
    }
  }

  // ----- write by write -----

  lemma ViewPutSound(db: Db, v: View)
    requires Sound(db) && ViewPut(db, v).Ok?
    ensures Sound(ViewPut(db, v).value)
  {
  }

  lemma ViewDeletedSound(db: Db, name: string)
    requires Sound(db) && ViewDeleted(db, name).Ok?
    ensures Sound(ViewDeleted(db, name).value)
  {
  }

  lemma {:induction false} WithoutHas(rows: seq<AddressRow>, service: string)
    ensures forall r :: r in Without(rows, service) ==> r in rows && r.service != service
  {
    if rows != [] {
      assert rows == rows[..|rows| - 1] + [rows[|rows| - 1]];
      WithoutHas(rows[..|rows| - 1], service);
    }
  }

  lemma AttachedSound(d: Db, svc: Service)
    requires Sound(d) && svc.name in d.services && ServiceAttached(d, svc).Ok?
    ensures Sound(ServiceAttached(d, svc).value)
  {
    var e := ServiceAttached(d, svc).value;
    forall r | r in e.addresses ensures r.service in e.services && ViewKnown(e, r.address.view) {
      if r !in d.addresses {
        var i :| 0 <= i < |svc.addresses| && RowsFor(svc.name, svc.addresses)[i] == r;
        assert svc.addresses[i] in svc.addresses;
      }
    }
  }

  // With one service's rows cleared, the service itself may go or be renamed.
  lemma ClearedSound(db: Db, h: string)
    requires Sound(db) && h in db.services
    ensures Sound(Bumped(ServiceCleared(db, h).(services := db.services - {h}), 1))
  {
    WithoutHas(db.addresses, h);
  }

  lemma ReplacedSound(db: Db, h: string, name: string, row: ServiceRow)
    requires Sound(db) && h in db.services
    ensures Sound(Bumped(ServiceCleared(db, h).(services := (db.services - {h})[name := row]), 1))
  {
    WithoutHas(db.addresses, h);
  }

  lemma AddedSound(db: Db, name: string, row: ServiceRow)
    requires Sound(db)
    ensures Sound(Bumped(db.(services := db.services[name := row]), 1))
  {
  }

  lemma ServicePutSound(db: Db, handle: Option<string>, svc: Service)
    requires Sound(db) && ServicePut(db, handle, svc).Ok?
    ensures Sound(ServicePut(db, handle, svc).value)
  {
    match handle
    case None =>
      AddedSound(db, svc.name, svc.row);
      AttachedSound(Bumped(db.(services := db.services[svc.name := svc.row]), 1), svc);
    case Some(h) =>
      if h in db.services {
        ReplacedSound(db, h, svc.name, svc.row);
        AttachedSound(Bumped(ServiceCleared(db, h).(services := (db.services - {h})[svc.name := svc.row]), 1), svc);
      }
  }

  lemma RecordPutSound(db: Db, r: Record)
    requires Sound(db) && RecordPut(db, r).Ok?
    ensures Sound(RecordPut(db, r).value)
  {
  }

  lemma {:induction false} WithoutRecordHas(rows: seq<RecordRow>, id: nat)
    ensures forall r :: r in WithoutRecord(rows, id) ==> r in rows
  {
    if rows != [] {
      assert rows == rows[..|rows| - 1] + [rows[|rows| - 1]];
      WithoutRecordHas(rows[..|rows| - 1], id);
    }
  }

  lemma RecordDeletedSound(db: Db, id: nat)
    requires Sound(db) && RecordDeleted(db, id).Ok?
    ensures Sound(RecordDeleted(db, id).value)
  {
    WithoutRecordHas(db.records, id);
  }

  lemma ZoneRenamedSound(db: Db, v: Settings<Strings>, from: string, to: string)
    requires Sound(db)
    ensures Sound(ZoneRenamed(db, v, from, to))
  {
    var e := ZoneRenamed(db, v, from, to);
    forall r | r in e.records ensures ViewKnown(e, r.record.view) {
      var i :| 0 <= i < |e.records| && e.records[i] == r;
      MovedView(db.records, ZoneRename.ZoneSuffix(from), ZoneRename.ZoneSuffix(to), i);
      assert db.records[i] in db.records;
    }
  }

  lemma MovedView(rows: seq<RecordRow>, from: string, to: string, i: nat)
    requires i < |rows|
    ensures MovedRows(rows, from, to)[i].record.view == rows[i].record.view
  {
  }

  // ----- the large transactions -----

  lemma {:induction false} ViewsPutSound(db: Db, vs: seq<View>)
    requires Sound(db) && ViewsPut(db, vs).Ok?
    ensures Sound(ViewsPut(db, vs).value)
  {
    if vs != [] {
      ViewsPutSound(db, vs[..|vs| - 1]);
      ViewPutSound(ViewsPut(db, vs[..|vs| - 1]).value, vs[|vs| - 1]);
    }
  }

  lemma {:induction false} ServicesPutSound(db: Db, svcs: seq<Service>)
    requires Sound(db) && ServicesPut(db, svcs).Ok?
    ensures Sound(ServicesPut(db, svcs).value)
  {
    if svcs != [] {
      ServicesPutSound(db, svcs[..|svcs| - 1]);
      ServicePutSound(ServicesPut(db, svcs[..|svcs| - 1]).value, None, svcs[|svcs| - 1]);
    }
  }

  lemma {:induction false} RecordsPutSound(db: Db, rs: seq<Record>)
    requires Sound(db) && RecordsPut(db, rs).Ok?
    ensures Sound(RecordsPut(db, rs).value)
  {
    if rs != [] {
      RecordsPutSound(db, rs[..|rs| - 1]);
      RecordPutSound(RecordsPut(db, rs[..|rs| - 1]).value, rs[|rs| - 1]);
    }
  }

  lemma RegistrySound(db: Db, vs: seq<View>, svcs: seq<Service>, rs: seq<Record>)
    requires Sound(db) && RegistryReplaced(db, vs, svcs, rs).Ok?
    ensures Sound(RegistryReplaced(db, vs, svcs, rs).value)
  {
    var a := Wiped(db);
    assert Sound(a);
    ViewsPutSound(a, vs);
    var b := ViewsPut(a, vs).value;
    ServicesPutSound(b, svcs);
    RecordsPutSound(ServicesPut(b, svcs).value, rs);
  }

  // The same registry, and lists under their own names.
  predicate SameRegistry(a: Db, b: Db) {
    a.views == b.views && a.subnets == b.subnets && a.services == b.services && a.addresses == b.addresses
    && a.aliases == b.aliases && a.records == b.records
  }

  lemma SameRegistrySound(a: Db, b: Db)
    requires Sound(a) && SameRegistry(a, b) && Named(b)
    ensures Sound(b)
  {
    assert forall v :: ViewKnown(a, v) == ViewKnown(b, v);
  }

  lemma {:induction false} ListsAppliedRegistry(db: Db, before: map<string, ListRow>, ls: seq<ListDef>)
    requires ListsApplied(db, before, ls).Ok?
    ensures SameRegistry(db, ListsApplied(db, before, ls).value)
  {
    if ls != [] { ListsAppliedRegistry(db, before, ls[..|ls| - 1]); }
  }

  lemma {:induction false} RulesPutRegistry(db: Db, rs: seq<Rule>)
    requires RulesPut(db, rs).Ok?
    ensures SameRegistry(db, RulesPut(db, rs).value)
  {
    if rs != [] { RulesPutRegistry(db, rs[..|rs| - 1]); }
  }

  lemma BlacklistRegistry(db: Db, b: BlacklistSettings, ls: seq<ListDef>, rs: seq<Rule>)
    requires BlacklistReplaced(db, b, ls, rs).Ok?
    ensures SameRegistry(db, BlacklistReplaced(db, b, ls, rs).value)
  {
    var d := ListsApplied(BlacklistPut(db, b), db.lists, ls).value;
    ListsAppliedRegistry(BlacklistPut(db, b), db.lists, ls);
    RulesPutRegistry(RulesWiped(ListsPruned(d, db.lists, NamesOf(ls))), rs);
  }

  lemma SnapshotSound(db: Db, input: Input)
    requires Sound(db) && SnapshotApplied(db, input).Ok?
    ensures Sound(SnapshotApplied(db, input).value)
  {
    RegistrySound(db, input.views, input.services, input.records);
    var d := RegistryReplaced(db, input.views, input.services, input.records).value;
    var s := SettingsPut(d, MergedSettings(d, input.settings));
    BlacklistRegistry(s, input.blacklist, input.lists, input.rules);
    SnapshotNamed(db, input);
    SameRegistrySound(d, SnapshotApplied(db, input).value);
  }

  predicate LeavesRegistry(w: Write) {
    || NodeOnly(w) || w.PutSettings? || w.SetBlacklistSettings? || w.PutBlacklistList? || w.DeleteBlacklistList?
    || w.PutBlacklistRule? || w.DeleteBlacklistRule? || w.ReplaceBlacklist?
  }

  lemma NodeOnlyLeaves(db: Db, w: Write)
    requires NodeOnly(w)
    ensures SameRegistry(db, After(db, w))
  {
    if w.SetBlacklistSnapshot? || w.SetBlacklistError? || w.TouchBlacklistAttempt? { RefreshLeaves(db, w); }
  }

  lemma RefreshLeaves(db: Db, w: Write)
    requires w.SetBlacklistSnapshot? || w.SetBlacklistError? || w.TouchBlacklistAttempt?
    ensures SameRegistry(db, After(db, w))
  {
  }

  lemma ListPutLeaves(db: Db, handle: Option<string>, l: ListDef)
    ensures ListPut(db, handle, l).Ok? ==> SameRegistry(db, ListPut(db, handle, l).value)
  {
  }

  lemma RegistryLeft(db: Db, w: Write)
    requires LeavesRegistry(w)
    ensures SameRegistry(db, After(db, w))
  {
    if NodeOnly(w) {
      NodeOnlyLeaves(db, w);
    } else if w.PutBlacklistList? {
      ListPutLeaves(db, w.handle, w.def);
    } else if w.ReplaceBlacklist? {
      if Perform(db, w).Ok? { PolicyFrame(db, w.kept, w.blacklist, w.lists, w.rules); }
    }
  }

  // Every write keeps every reference whole, or fails and changes nothing.
  lemma EveryWriteKeepsSound(db: Db, w: Write)
    requires Sound(db)
    ensures Sound(After(db, w))
  {
    if LeavesRegistry(w) {
      RegistryLeft(db, w);
      EveryWriteKeepsNames(db, w);
      SameRegistrySound(db, After(db, w));
    } else if Perform(db, w).Ok? {
      PerformedSound(db, w);
    }
  }

  lemma PerformedSound(db: Db, w: Write)
    requires Sound(db) && !LeavesRegistry(w) && Perform(db, w).Ok?
    ensures Sound(Perform(db, w).value)
  {
    if w.PutView? {
      ViewPutSound(db, w.view);
    } else if w.DeleteView? {
      ViewDeletedSound(db, w.name);
    } else if w.PutService? {
      ServicePutSound(db, w.handle, w.service);
    } else if w.DeleteService? {
      ClearedSound(db, w.name);
    } else if w.PutRecord? || w.DeleteRecord? {
      RecordPerformedSound(db, w);
    } else {
      WholePerformedSound(db, w);
    }
  }

  lemma RecordPerformedSound(db: Db, w: Write)
    requires Sound(db) && Perform(db, w).Ok? && (w.PutRecord? || w.DeleteRecord?)
    ensures Sound(Perform(db, w).value)
  {
    if w.PutRecord? { RecordPutSound(db, w.record); } else { RecordDeletedSound(db, w.id); }
  }

  lemma WholePerformedSound(db: Db, w: Write)
    requires Sound(db) && Perform(db, w).Ok?
    requires w.ReplaceAll? || w.PutSettingsRenamingZone? || w.ApplySnapshot?
    ensures Sound(Perform(db, w).value)
  {
    if w.ReplaceAll? {
      RegistrySound(db, w.views, w.services, w.records);
    } else if w.PutSettingsRenamingZone? {
      ZoneRenamedSound(db, w.settings, w.from, w.to);
    } else {
      SnapshotSound(db, w.input);
    }
  }
}
