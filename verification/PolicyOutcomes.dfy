/** What each write to the records, the settings, the lists and rules and this node's own
    bookkeeping leaves, column by column, and when it is refused. */
module PolicyOutcomes {
  import opened Wrappers
  import opened Sequences
  import opened Tables
  import opened StoreFacts
  import Texts

  // ----- records -----

  // Rows are numbered in the order they were put.
  predicate Numbered(rows: seq<RecordRow>) { forall i, j :: 0 <= i < j < |rows| ==> rows[i].id < rows[j].id }

  function OtherThan(id: nat): RecordRow -> bool { (r: RecordRow) => r.id != id }

  lemma {:induction false} KeptByPosition(rows: seq<RecordRow>, id: nat) returns (at: seq<nat>)
    ensures Selects(at, rows, OtherThan(id), Itself(), WithoutRecord(rows, id))
    ensures |WithoutRecord(rows, id)| < |rows| <==> exists r :: r in rows && r.id == id
  {
    hide Selects;
    at := [];
    if rows == [] {
      SelectsNone(OtherThan(id), Itself<RecordRow>());
    } else {
      var n := |rows| - 1;
      at := KeptByPosition(rows[..n], id);
      Front(rows);
      SelectsMore(at, rows[..n], OtherThan(id), Itself(), WithoutRecord(rows[..n], id), rows[n]);
      if rows[n].id != id {
        at := at + [n];
      } else {
        assert WithoutRecord(rows[..n], id) + [] == WithoutRecord(rows[..n], id);
      }
    }
  }

  // A record is put, last and under a number of its own, exactly when its view is there.
  lemma PutRecordOutcome(db: Db, r: Record)
    ensures var p := Perform(db, PutRecord(r));
      && (p.Ok? <==> r.view == "" || r.view in db.views)
      && (p.Ok? ==>
            && |p.value.records| == |db.records| + 1 && p.value.records[..|db.records|] == db.records
            && p.value.records[|db.records|].record == r
            && (Numbered(db.records) ==> Numbered(p.value.records))
            && p.value == db.(records := p.value.records, version := p.value.version))
  {
  }

  // These are the rows that are left, those of another number, in order.
  ghost predicate Left(db: Db, after: Db, id: nat, at: seq<nat>) {
    && Ascending(at, |db.records|) && |at| == |after.records|
    && (forall k :: 0 <= k < |at| ==> after.records[k] == db.records[at[k]])
    && (forall i :: 0 <= i < |db.records| ==> (i in at <==> db.records[i].id != id))
    && after == db.(records := after.records, version := after.version)
  }

  // A record is deleted exactly when one has the number; the others stay, in order.
  lemma DeleteRecordOutcome(db: Db, id: nat) returns (at: seq<nat>)
    ensures var p := Perform(db, DeleteRecord(id));
      (p.Ok? <==> exists r :: r in db.records && r.id == id) && (p.Ok? ==> Left(db, p.value, id, at))
  {
    at := RowsLeft(db, id);
    assert Perform(db, DeleteRecord(id)) == RecordDeleted(db, id);
    hide Left, Perform, RecordDeleted;
  }

  lemma RowsLeft(db: Db, id: nat) returns (at: seq<nat>)
    ensures var p := RecordDeleted(db, id);
      (p.Ok? <==> exists r :: r in db.records && r.id == id) && (p.Ok? ==> Left(db, p.value, id, at))
  {
    at := KeptByPosition(db.records, id);
  }

  // ----- settings -----

  // The text is the entries one a line; nothing for none.
  predicate Lines(text: string, v: Strings) {
    if v.All() == [] then text == "" else text == Texts.Join(v.All(), '\n')
  }

  // Each column holds what was handed over for it.
  predicate SharedColumns(row: Replicated<string>, v: Replicated<Strings>) {
    && row.privateDomain == v.privateDomain && Lines(row.reverseZones, v.reverseZones)
    && Lines(row.upstreams, v.upstreams) && Lines(row.allowQuery, v.allowQuery)
    && row.allowTailscale == v.allowTailscale && row.ttl == v.ttl && row.cacheMinTTL == v.cacheMinTTL
    && row.cacheMaxTTL == v.cacheMaxTTL && row.negativeMaxTTL == v.negativeMaxTTL
    && row.cacheEntries == v.cacheEntries && row.healthInterval == v.healthInterval
    && row.healthTimeout == v.healthTimeout && row.healthWorkers == v.healthWorkers
  }

  // Saved settings replace the row, all of it, and nothing else. Replicas hear of it
  // exactly when a column they share moves.
  lemma PutSettingsOutcome(db: Db, v: Settings<Strings>)
    ensures var after := After(db, PutSettings(v));
      && after.settings.Some? && SharedColumns(after.settings.value.shared, v.shared)
      && after.settings.value.local == v.local && after.settings.value.dhcp == v.dhcp
      && after == db.(settings := after.settings, version := after.version)
      && (after.version > db.version <==>
            db.settings.None? || db.settings.value.shared != after.settings.value.shared)
  {
  }

  // Saved with a renamed zone they do the same, and each record keeps its place and number,
  // its kind and its view.
  lemma RenamingOutcome(db: Db, v: Settings<Strings>, from: string, to: string)
    ensures var after := After(db, PutSettingsRenamingZone(v, from, to));
      && after.settings == After(db, PutSettings(v)).settings
      && |after.records| == |db.records|
      && (forall i :: 0 <= i < |db.records| ==>
            && after.records[i].id == db.records[i].id
            && after.records[i].record.kind == db.records[i].record.kind
            && after.records[i].record.view == db.records[i].record.view)
      && after == db.(settings := after.settings, records := after.records, version := after.version)
  {
  }

  // The DHCP columns are saved exactly when there is a row to hold them, and no other
  // column moves.
  lemma PutDHCPOutcome(db: Db, dhcp: DHCP)
    ensures var p := Perform(db, PutDHCPSettings(dhcp));
      && (p.Ok? <==> db.settings.Some?)
      && (p.Ok? ==> p.value.settings == Some(Settings(db.settings.value.shared, db.settings.value.local, dhcp)))
      && (p.Ok? ==> p.value == db.(settings := p.value.settings))
  {
  }

  // ----- lists and rules -----

  // Every list but these keeps its definition and what it downloaded, and no table but
  // theirs moves.
  ghost predicate OnlyLists(db: Db, after: Db, names: set<string>) {
    && (forall n :: n !in names ==> (n in after.lists <==> n in db.lists))
    && (forall n :: n !in names && n in db.lists ==> after.lists[n] == db.lists[n])
    && after == db.(lists := after.lists, version := after.version)
  }

  // A new list is put, with nothing downloaded, exactly when its name is free.
  lemma InsertListOutcome(db: Db, l: ListDef)
    ensures var p := Perform(db, PutBlacklistList(None, l));
      && (p.Ok? <==> l.name !in db.lists)
      && (p.Ok? ==> OnlyLists(db, p.value, {l.name}))
      && (p.Ok? ==> l.name in p.value.lists && p.value.lists[l.name] == ListRow(l, NO_BODY))
  {
  }

  // An existing one is edited exactly when it is there and the name it is to have is its
  // own or free. Then it has the new definition, save that it stays built in or not, and
  // what it had downloaded; its old name, if it has another now, is gone.
  lemma EditListOutcome(db: Db, handle: string, l: ListDef)
    ensures var p := Perform(db, PutBlacklistList(Some(handle), l));
      && (p.Ok? <==> handle in db.lists && (l.name == handle || l.name !in db.lists))
      && (p.Err? ==> p.error == if handle in db.lists then DuplicateName else NotFound)
      && (p.Ok? ==> OnlyLists(db, p.value, {l.name, handle}) && (handle != l.name ==> handle !in p.value.lists))
      && (p.Ok? ==> l.name in p.value.lists && p.value.lists[l.name].body == db.lists[handle].body)
      && (p.Ok? ==>
            p.value.lists[l.name].def ==
              ListDef(l.name, l.url, l.format, l.description, l.enabled, db.lists[handle].def.builtin, l.interval))
  {
  }

  lemma DeleteListOutcome(db: Db, name: string)
    ensures var p := Perform(db, DeleteBlacklistList(name));
      (p.Ok? <==> name in db.lists) && (p.Ok? ==> OnlyLists(db, p.value, {name}) && name !in p.value.lists)
  {
  }

  // A download replaces the body and its bookkeeping. The definition stays.
  lemma DownloadOutcome(db: Db, name: string, domains: seq<string>, skipped: int, etag: string, lastModified: string,
                        at: int)
    requires name in db.lists
    ensures var after := After(db, SetBlacklistSnapshot(name, domains, skipped, etag, lastModified, at));
      && OnlyLists(db, after, {name}) && name in after.lists
      && after.lists[name] ==
           ListRow(db.lists[name].def, Body(domains, etag, lastModified, |domains|, skipped, at, at, ""))
  {
  }

  // A failed one notes the error and the time of it; one that found nothing new notes the
  // time as good and clears the error. The body stays.
  lemma AttemptOutcome(db: Db, name: string, msg: string, at: int)
    requires name in db.lists
    ensures var failed, same := After(db, SetBlacklistError(name, msg, at)), After(db, TouchBlacklistAttempt(name, at));
      var row := db.lists[name];
      && OnlyLists(db, failed, {name}) && OnlyLists(db, same, {name}) && name in failed.lists && name in same.lists
      && failed.lists[name] == row.(body := row.body.(error := msg, attemptAt := at))
      && same.lists[name] == row.(body := row.body.(error := "", attemptAt := at, okAt := at))
  {
  }

  // For a list that is gone there is nothing to note, and only the download is refused.
  lemma StaleRefreshOutcome(db: Db, name: string, domains: seq<string>, skipped: int, etag: string,
                            lastModified: string, msg: string, at: int)
    requires name !in db.lists
    ensures Perform(db, SetBlacklistSnapshot(name, domains, skipped, etag, lastModified, at)) == Err(NotFound)
    ensures Perform(db, SetBlacklistError(name, msg, at)) == Ok(db) == Perform(db, TouchBlacklistAttempt(name, at))
  {
  }

  ghost predicate OnlyRules(db: Db, after: Db, domain: string) {
    && (forall d :: d != domain ==> (d in after.rules <==> d in db.rules))
    && (forall d :: d != domain && d in db.rules ==> after.rules[d] == db.rules[d])
    && after == db.(rules := after.rules, version := after.version)
  }

  // A rule is put exactly when its domain has none, and deleted exactly when it has one.
  lemma RuleOutcome(db: Db, r: Rule)
    ensures var p, q := Perform(db, PutBlacklistRule(r)), Perform(db, DeleteBlacklistRule(r.domain));
      && (p.Ok? <==> r.domain !in db.rules) && (q.Ok? <==> r.domain in db.rules)
      && (p.Ok? ==> OnlyRules(db, p.value, r.domain) && r.domain in p.value.rules && p.value.rules[r.domain] == r.kind)
      && (q.Ok? ==> OnlyRules(db, q.value, r.domain) && r.domain !in q.value.rules)
  {
  }

  lemma {:induction false} RulesWritten(db: Db, rs: seq<Rule>)
    requires RulesPut(db, rs).Ok?
    ensures var d := RulesPut(db, rs).value;
      && (forall x :: x in d.rules <==> x in db.rules || exists r :: r in rs && r.domain == x)
      && (forall r :: r in rs ==> d.rules[r.domain] == r.kind)
      && (forall x :: x in db.rules ==> d.rules[x] == db.rules[x])
  {
    if rs != [] {
      RulesWritten(db, rs[..|rs| - 1]);
      Front(rs);
    }
  }

  // An imported policy replaces the block settings and every rule, and nothing but the
  // policy; the lists are the business of ImportKeepsDownloads.
  lemma ImportOutcome(db: Db, kept: map<string, Body>, b: BlacklistSettings, ls: seq<ListDef>, rs: seq<Rule>)
    requires Perform(db, ReplaceBlacklist(kept, b, ls, rs)).Ok?
    ensures var after := After(db, ReplaceBlacklist(kept, b, ls, rs));
      && after.blacklist == b
      && (forall x :: x in after.rules <==> exists r :: r in rs && r.domain == x)
      && (forall r :: r in rs ==> after.rules[r.domain] == r.kind)
      && after == db.(blacklist := b, lists := after.lists, rules := after.rules, version := after.version)
  {
    PolicyFrame(db, kept, b, ls, rs);
    var start := BlacklistPut(PolicyWiped(db), b);
    var d := ListsImported(start, kept, ls).value;
    ListsImportedFrame(start, kept, ls);
    RulesWritten(d, rs);
  }

  // ----- the rest -----

  lemma BlockSettingsOutcome(db: Db, b: BlacklistSettings)
    ensures var after := After(db, SetBlacklistSettings(b));
      after == db.(blacklist := b, version := after.version)
  {
  }

  // Whom this node follows, and when it was promoted, each on its own; a node that joins a
  // primary forgets that it was ever promoted.
  lemma NodeOutcome(db: Db, primary: string, held: nat, at: int)
    ensures After(db, SetReplicaState(primary, held)) == db.(node := Node(primary, held, db.node.promotedAt))
    ensures After(db, RecordPromotion(at)) == db.(node := Node(db.node.primary, db.node.held, Some(at)))
    ensures After(db, FollowPrimary(primary, held)) == db.(node := Node(primary, held, None))
  {
  }
}
