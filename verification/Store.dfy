/** The store: every write a transaction over the tables that commits whole or leaves
    them as they were, and every query in whatever order its rows come. */
module StoreObject {
  import opened Wrappers
  import opened Tables
  import opened StoreFacts
  import opened SnapshotReads
  import Texts
  import opened Listings
  import ZoneRename
  import RenamedAnswers

  // What a write attempt leaves: the write's result once it commits, nothing of it else.
  predicate Does(before: Db, w: Write, commits: bool, r: Option<Error>, after: Db) {
    Leaves(before, Perform(before, w), commits, r, after)
  }

  predicate Leaves(before: Db, tx: Result<Db, Error>, commits: bool, r: Option<Error>, after: Db) {
    match tx
    case Err(e) => r == Some(e) && after == before
    case Ok(d) => if commits then r == None && after == d else r == Some(NotCommitted) && after == before
  }

  lemma DoesApply(before: Db, input: Input, commits: bool, r: Option<Error>, after: Db)
    requires Leaves(before, SnapshotApplied(before, input), commits, r, after)
    ensures Does(before, ApplySnapshot(input), commits, r, after)
  {
  }

  // The records after a rename of the private domain.
  function MovedBetween(rs: seq<Record>, from: string, to: string): seq<Record> {
    RenamedAnswers.MoveRecords(rs, ZoneRename.ZoneSuffix(from), ZoneRename.ZoneSuffix(to))
  }

  // ----- inside an open transaction -----

  lemma KeyTaken(m: map<string, string>, keys: seq<string>, i: nat)
    requires i < |keys| && (keys[i] in m || keys[i] in keys[..i])
    ensures !Distinct(keys) || exists k :: k in keys && k in m
  {
    if keys[i] !in m {
      var j :| 0 <= j < i && keys[..i][j] == keys[i];
    }
  }

  lemma OneMoreKey(m: map<string, string>, keys: seq<string>, i: nat, owner: string)
    requires i < |keys| && Distinct(keys[..i]) && (forall k :: k in keys[..i] ==> k !in m)
    requires keys[i] !in m + AllTo(keys[..i], owner)
    ensures Distinct(keys[..i + 1]) && forall k :: k in keys[..i + 1] ==> k !in m
    ensures m + AllTo(keys[..i + 1], owner) == (m + AllTo(keys[..i], owner))[keys[i] := owner]
  {
    assert keys[..i + 1] == keys[..i] + [keys[i]];
  }

  // Inserts one row per key; the index refuses a key that has a row already.
  method InsertKeys(m: map<string, string>, keys: seq<string>, owner: string)
    returns (grown: Option<map<string, string>>)
    ensures grown == if !Distinct(keys) || exists k :: k in keys && k in m then None else Some(m + AllTo(keys, owner))
  {
    var now := m;
    for i := 0 to |keys|
      invariant Distinct(keys[..i]) && forall k :: k in keys[..i] ==> k !in m
      invariant now == m + AllTo(keys[..i], owner)
    {
      if keys[i] in now {
        KeyTaken(m, keys, i);
        return None;
      }
      OneMoreKey(m, keys, i, owner);
      now := now[keys[i] := owner];
    }
    assert keys[..|keys|] == keys;
    return Some(now);
  }

  method PutViewIn(tx: Db, v: View) returns (r: Result<Db, Error>)
    ensures r == ViewPut(tx, v)
  {
    var d := tx;
    if v.name !in d.views {
      d := Bumped(d.(views := d.views + {v.name}), 1);
    }
    var owned := OwnedBy(d.subnets, v.name);
    d := Bumped(d.(subnets := d.subnets - owned), |owned|);
    assert tx.views + {v.name} == d.views;
    assert d == ViewCleared(tx, v.name);
    var grown := InsertKeys(d.subnets, v.subnets, v.name);
    if grown.None? {
      return Err(DuplicateCIDR);
    }
    return Ok(Bumped(d.(subnets := grown.value), |v.subnets|));
  }

  method AttachIn(tx: Db, svc: Service) returns (r: Result<Db, Error>)
    ensures r == ServiceAttached(tx, svc)
  {
    var d := tx;
    for i := 0 to |svc.addresses|
      invariant forall a :: a in svc.addresses[..i] ==> ViewKnown(tx, a.view)
      invariant d == tx.(addresses := tx.addresses + RowsFor(svc.name, svc.addresses[..i]), version := tx.version + i)
    {
      assert svc.addresses[..i + 1] == svc.addresses[..i] + [svc.addresses[i]];
      if !ViewKnown(d, svc.addresses[i].view) {
        return Err(Refused);
      }
      assert RowsFor(svc.name, svc.addresses[..i + 1]) ==
        RowsFor(svc.name, svc.addresses[..i]) + [AddressRow(svc.name, svc.addresses[i])];
      d := Bumped(d.(addresses := d.addresses + [AddressRow(svc.name, svc.addresses[i])]), 1);
    }
    assert svc.addresses[..|svc.addresses|] == svc.addresses;
    var grown := InsertKeys(d.aliases, svc.aliases, svc.name);
    if grown.None? {
      return Err(DuplicateName);
    }
    return Ok(Bumped(d.(aliases := grown.value), |svc.aliases|));
  }

  method PutServiceIn(tx: Db, handle: Option<string>, svc: Service) returns (r: Result<Db, Error>)
    ensures r == ServicePut(tx, handle, svc)
  {
    var d := tx;
    match handle {
      case None =>
        if svc.name in d.services {
          return Err(DuplicateName);
        }
        d := Bumped(d.(services := d.services[svc.name := svc.row]), 1);
      case Some(h) =>
        if h !in d.services {
          return if |svc.addresses| == 0 && |svc.aliases| == 0 then Ok(d) else Err(Refused);
        }
        if svc.name != h && svc.name in d.services {
          return Err(Refused);
        }
        d := ServiceCleared(d, h);
        d := Bumped(d.(services := (d.services - {h})[svc.name := svc.row]), 1);
    }
    r := AttachIn(d, svc);
  }

  method ReplaceAllIn(tx: Db, views: seq<View>, svcs: seq<Service>, records: seq<Record>) returns (r: Result<Db, Error>)
    ensures r == RegistryReplaced(tx, views, svcs, records)
  {
    r := PutAllViews(Wiped(tx), views);
    if r.Err? {
      return;
    }
    r := PutAllServices(r.value, svcs);
    if r.Err? {
      return;
    }
    r := PutAllRecords(r.value, records);
  }

  lemma {:induction false} ViewsStayRefused(tx: Db, vs: seq<View>, n: nat)
    requires n <= |vs| && ViewsPut(tx, vs[..n]).Err?
    ensures ViewsPut(tx, vs) == ViewsPut(tx, vs[..n])
  {
    if n == |vs| {
      assert vs[..n] == vs;
    } else {
      assert vs[..|vs| - 1][..n] == vs[..n];
      ViewsStayRefused(tx, vs[..|vs| - 1], n);
    }
  }

  method PutAllViews(tx: Db, vs: seq<View>) returns (r: Result<Db, Error>)
    ensures r == ViewsPut(tx, vs)
  {
    r := Ok(tx);
    for i := 0 to |vs|
      invariant r.Ok? && r == ViewsPut(tx, vs[..i])
    {
      assert vs[..i + 1][..i] == vs[..i];
      r := PutViewIn(r.value, vs[i]);
      if r.Err? {
        ViewsStayRefused(tx, vs, i + 1);
        return;
      }
    }
    assert vs[..|vs|] == vs;
  }

  lemma {:induction false} ServicesStayRefused(tx: Db, svcs: seq<Service>, n: nat)
    requires n <= |svcs| && ServicesPut(tx, svcs[..n]).Err?
    ensures ServicesPut(tx, svcs) == ServicesPut(tx, svcs[..n])
  {
    if n == |svcs| {
      assert svcs[..n] == svcs;
    } else {
      assert svcs[..|svcs| - 1][..n] == svcs[..n];
      ServicesStayRefused(tx, svcs[..|svcs| - 1], n);
    }
  }

  method PutAllServices(tx: Db, svcs: seq<Service>) returns (r: Result<Db, Error>)
    ensures r == ServicesPut(tx, svcs)
  {
    r := Ok(tx);
    for i := 0 to |svcs|
      invariant r.Ok? && r == ServicesPut(tx, svcs[..i])
    {
      assert svcs[..i + 1][..i] == svcs[..i];
      r := PutServiceIn(r.value, None, svcs[i]);
      if r.Err? {
        ServicesStayRefused(tx, svcs, i + 1);
        return;
      }
    }
    assert svcs[..|svcs|] == svcs;
  }

  lemma {:induction false} RecordsStayRefused(tx: Db, rs: seq<Record>, n: nat)
    requires n <= |rs| && RecordsPut(tx, rs[..n]).Err?
    ensures RecordsPut(tx, rs) == RecordsPut(tx, rs[..n])
  {
    if n == |rs| {
      assert rs[..n] == rs;
    } else {
      assert rs[..|rs| - 1][..n] == rs[..n];
      RecordsStayRefused(tx, rs[..|rs| - 1], n);
    }
  }

  method PutAllRecords(tx: Db, rs: seq<Record>) returns (r: Result<Db, Error>)
    ensures r == RecordsPut(tx, rs)
  {
    r := Ok(tx);
    for i := 0 to |rs|
      invariant r.Ok? && r == RecordsPut(tx, rs[..i])
    {
      assert rs[..i + 1][..i] == rs[..i];
      r := RecordPut(r.value, rs[i]);
      if r.Err? {
        RecordsStayRefused(tx, rs, i + 1);
        return;
      }
    }
    assert rs[..|rs|] == rs;
  }

  lemma {:induction false} ListsStayRefused(tx: Db, before: map<string, ListRow>, ls: seq<ListDef>, n: nat)
    requires n <= |ls| && ListsApplied(tx, before, ls[..n]).Err?
    ensures ListsApplied(tx, before, ls) == ListsApplied(tx, before, ls[..n])
  {
    if n == |ls| {
      assert ls[..n] == ls;
    } else {
      assert ls[..|ls| - 1][..n] == ls[..n];
      ListsStayRefused(tx, before, ls[..|ls| - 1], n);
    }
  }

  lemma OneMoreName(ls: seq<ListDef>, i: nat)
    requires i < |ls|
    ensures NamesOf(ls[..i + 1]) == NamesOf(ls[..i]) + {ls[i].name}
  {
    assert ls[..i + 1] == ls[..i] + [ls[i]];
  }

  method ApplyLists(tx: Db, before: map<string, ListRow>, ls: seq<ListDef>)
    returns (r: Result<Db, Error>, incoming: set<string>)
    ensures r == ListsApplied(tx, before, ls)
    ensures r.Ok? ==> incoming == NamesOf(ls)
  {
    r, incoming := Ok(tx), {};
    for i := 0 to |ls|
      invariant r.Ok? && r == ListsApplied(tx, before, ls[..i])
      invariant incoming == NamesOf(ls[..i])
    {
      assert ls[..i + 1][..i] == ls[..i];
      OneMoreName(ls, i);
      incoming := incoming + {ls[i].name};
      r := ListApplied(r.value, before, ls[i]);
      if r.Err? {
        ListsStayRefused(tx, before, ls, i + 1);
        return;
      }
    }
    assert ls[..|ls|] == ls;
  }

  lemma {:induction false} RulesStayRefused(tx: Db, rs: seq<Rule>, n: nat)
    requires n <= |rs| && RulesPut(tx, rs[..n]).Err?
    ensures RulesPut(tx, rs) == RulesPut(tx, rs[..n])
  {
    if n == |rs| {
      assert rs[..n] == rs;
    } else {
      assert rs[..|rs| - 1][..n] == rs[..n];
      RulesStayRefused(tx, rs[..|rs| - 1], n);
    }
  }

  method PutAllRules(tx: Db, rs: seq<Rule>) returns (r: Result<Db, Error>)
    ensures r == RulesPut(tx, rs)
  {
    r := Ok(tx);
    for i := 0 to |rs|
      invariant r.Ok? && r == RulesPut(tx, rs[..i])
    {
      assert rs[..i + 1][..i] == rs[..i];
      r := RulePut(r.value, rs[i]);
      if r.Err? {
        RulesStayRefused(tx, rs, i + 1);
        return;
      }
    }
    assert rs[..|rs|] == rs;
  }

  lemma {:induction false} ImportStaysRefused(tx: Db, kept: map<string, Body>, ls: seq<ListDef>, n: nat)
    requires n <= |ls| && ListsImported(tx, kept, ls[..n]).Err?
    ensures ListsImported(tx, kept, ls) == ListsImported(tx, kept, ls[..n])
  {
    if n == |ls| {
      assert ls[..n] == ls;
    } else {
      assert ls[..|ls| - 1][..n] == ls[..n];
      ImportStaysRefused(tx, kept, ls[..|ls| - 1], n);
    }
  }

  method ImportLists(tx: Db, kept: map<string, Body>, ls: seq<ListDef>) returns (r: Result<Db, Error>)
    ensures r == ListsImported(tx, kept, ls)
  {
    var d := tx;
    for i := 0 to |ls|
      invariant ListsImported(tx, kept, ls[..i]) == Ok(d)
    {
      assert ls[..i + 1][..i] == ls[..i];
      var l := ls[i];
      if l.name in d.lists {
        ImportStaysRefused(tx, kept, ls, i + 1);
        return Err(DuplicateName);
      }
      var body := if l.url in kept then kept[l.url].(error := "") else NO_BODY;
      d := d.(lists := d.lists[l.name := ListRow(l, body)], version := d.version + 1);
    }
    assert ls[..|ls|] == ls;
    return Ok(d);
  }

  method ImportPolicyIn(tx: Db, kept: map<string, Body>, b: BlacklistSettings, ls: seq<ListDef>, rs: seq<Rule>)
    returns (r: Result<Db, Error>)
    ensures r == PolicyImported(tx, kept, b, ls, rs)
  {
    var d := tx.(rules := map[], lists := map[], version := tx.version + |tx.rules| + |tx.lists|);
    r := ImportLists(d.(blacklist := b, version := d.version + 1), kept, ls);
    if r.Ok? {
      r := PutAllRules(r.value, rs);
    }
  }

  method ReplaceBlacklistDefinitionsIn(tx: Db, b: BlacklistSettings, ls: seq<ListDef>, rs: seq<Rule>)
    returns (r: Result<Db, Error>)
    ensures r == BlacklistReplaced(tx, b, ls, rs)
  {
    var existing := tx.lists;
    var incoming: set<string>;
    r, incoming := ApplyLists(BlacklistPut(tx, b), existing, ls);
    if r.Err? {
      return;
    }
    var d := ListsPruned(r.value, existing, incoming);
    r := PutAllRules(RulesWiped(d), rs);
  }

  method ApplySnapshotIn(tx: Db, input: Input) returns (r: Result<Db, Error>)
    ensures r == SnapshotApplied(tx, input)
  {
    r := ReplaceAllIn(tx, input.views, input.services, input.records);
    if r.Err? {
      return;
    }
    var settings := input.settings;
    if r.value.settings.Some? {
      var row := r.value.settings.value;
      settings := settings.(local := row.local, dhcp := row.dhcp);
    }
    assert settings == MergedSettings(r.value, input.settings);
    r := ReplaceBlacklistDefinitionsIn(SettingsPut(r.value, settings), input.blacklist, input.lists, input.rules);
  }

  method MoveOne(r: Record, from: string, to: string) returns (m: Record, moved: bool)
    ensures m == RenamedAnswers.MoveRecord(r, from, to) && moved == Moves(r, from, to)
    ensures !moved ==> m == r
  {
    var renamed := ZoneRename.RenameInZone(r.name, from, to);
    var value, valueMoved := r.value, false;
    if r.kind == "CNAME" || r.kind == "PTR" {
      var retargeted := ZoneRename.RenameInZone(r.value, from, to);
      value, valueMoved := retargeted.0, retargeted.1;
    }
    m, moved := r.(name := renamed.0, value := value), renamed.1 || valueMoved;
    if !moved { UnmovedIsSame(r, from, to); }
  }

  method MoveRow(was: RecordRow, from: string, to: string) returns (row: RecordRow, touched: bool)
    ensures row == RowMoved(was, from, to) && touched == Moves(was.record, from, to)
    ensures !touched ==> row == was
  {
    var m;
    m, touched := MoveOne(was.record, from, to);
    row := RecordRow(was.id, m);
  }

  function RowMoved(row: RecordRow, from: string, to: string): RecordRow {
    RecordRow(row.id, RenamedAnswers.MoveRecord(row.record, from, to))
  }

  // The first n rows, moved.
  function FirstMoved(recs: seq<RecordRow>, from: string, to: string, n: nat): (r: seq<RecordRow>)
    requires n <= |recs|
    ensures |r| == n
  {
    if n == 0 then [] else FirstMoved(recs, from, to, n - 1) + [RowMoved(recs[n - 1], from, to)]
  }

  lemma {:induction false} AllMoved(recs: seq<RecordRow>, from: string, to: string, n: nat)
    requires n <= |recs|
    ensures FirstMoved(recs, from, to, n) == MovedRows(recs, from, to)[..n]
  {
    if n > 0 { AllMoved(recs, from, to, n - 1); }
  }

  lemma Spliced<T>(done: seq<T>, rest: seq<T>, t: T)
    requires rest != []
    ensures (done + rest)[|done| := t] == (done + [t]) + rest[1..]
    ensures t == rest[0] ==> done + rest == (done + [t]) + rest[1..]
  {
  }

  // Writes the rows the rename touches, one by one, and no other.
  method MoveRows(recs: seq<RecordRow>, from: string, to: string) returns (rows: seq<RecordRow>, moved: nat)
    ensures rows == MovedRows(recs, from, to)
    ensures moved == Counted(recs, Mover(from, to), |recs|)
  {
    rows, moved := recs, 0;
    for i := 0 to |recs|
      invariant rows == FirstMoved(recs, from, to, i) + recs[i..]
      invariant moved == Counted(recs, Mover(from, to), i)
    {
      var row, touched := MoveRow(recs[i], from, to);
      Spliced(FirstMoved(recs, from, to, i), recs[i..], row);
      if touched {
        rows := rows[i := row];
        moved := moved + 1;
      }
    }
    AllMoved(recs, from, to, |recs|);
  }

  lemma MovedRecords(rows: seq<RecordRow>, from: string, to: string)
    ensures RecordsOf(MovedRows(rows, from, to)) == RenamedAnswers.MoveRecords(RecordsOf(rows), from, to)
  {
    var a, b := RecordsOf(MovedRows(rows, from, to)), RenamedAnswers.MoveRecords(RecordsOf(rows), from, to);
    forall i | 0 <= i < |rows| ensures a[i] == b[i] {
      assert RecordsOf(rows)[i] == rows[i].record;
    }
  }

  lemma {:induction false} RestIsTheOthers(rows: seq<RecordRow>, id: nat)
    ensures forall row :: row in WithoutRecord(rows, id) <==> row in rows && row.id != id
  {
    if rows != [] {
      RestIsTheOthers(rows[..|rows| - 1], id);
      assert rows == rows[..|rows| - 1] + [rows[|rows| - 1]];
    }
  }

  lemma {:induction false} RestIsAll(rows: seq<RecordRow>, id: nat)
    requires forall row :: row in rows ==> row.id != id
    ensures WithoutRecord(rows, id) == rows
  {
    if rows != [] {
      var last := rows[|rows| - 1];
      assert last in rows && rows == rows[..|rows| - 1] + [last];
      RestIsAll(rows[..|rows| - 1], id);
    }
  }

  // ----- the store -----

  class Store {
    var db: Db

    constructor ()
      ensures db == EMPTY
    {
      db := EMPTY;
    }

    method Commit(tx: Result<Db, Error>, commits: bool) returns (r: Option<Error>)
      modifies this
      ensures db == if tx.Ok? && commits then tx.value else old(db)
      ensures r == if tx.Err? then Some(tx.error) else if commits then None else Some(NotCommitted)
    {
      match tx
      case Err(e) =>
        r := Some(e);
      case Ok(d) =>
        if commits {
          db := d;
          r := None;
        } else {
          r := Some(NotCommitted);
        }
    }

    method PutView(v: View, commits: bool) returns (r: Option<Error>)
      modifies this
      ensures Does(old(db), Write.PutView(v), commits, r, db)
    {
      var tx := PutViewIn(db, v);
      r := Commit(tx, commits);
    }

    method DeleteView(name: string, commits: bool) returns (r: Option<Error>)
      modifies this
      ensures Does(old(db), Write.DeleteView(name), commits, r, db)
    {
      if ViewReferenced(db, name) {
        return Some(ViewInUse);
      }
      if name !in db.views {
        return Some(NotFound);
      }
      var owned := OwnedBy(db.subnets, name);
      var tx := db.(views := db.views - {name}, subnets := db.subnets - owned);
      r := Commit(Ok(Bumped(tx, 1 + |owned|)), commits);
    }

    method PutService(handle: Option<string>, svc: Service, commits: bool) returns (r: Option<Error>)
      modifies this
      ensures Does(old(db), Write.PutService(handle, svc), commits, r, db)
    {
      var tx := PutServiceIn(db, handle, svc);
      r := Commit(tx, commits);
    }

    method DeleteService(name: string, commits: bool) returns (r: Option<Error>)
      modifies this
      ensures Does(old(db), Write.DeleteService(name), commits, r, db)
    {
      if name !in db.services {
        return Some(NotFound);
      }
      var rest, owned := Without(db.addresses, name), OwnedBy(db.aliases, name);
      var tx := db.(services := db.services - {name}, addresses := rest, aliases := db.aliases - owned);
      r := Commit(Ok(Bumped(tx, 1 + (|db.addresses| - |rest|) + |owned|)), commits);
    }

    // A new row with a new number; the foreign key wants the view to be there.
    method PutRecord(record: Record, commits: bool) returns (r: Option<Error>)
      modifies this
      ensures Does(old(db), Write.PutRecord(record), commits, r, db)
      ensures r == None <==> commits && (record.view == "" || record.view in old(db).views)
      ensures r == None ==> RecordsOf(db.records) == RecordsOf(old(db).records) + [record]
    {
      if record.view != "" && record.view !in db.views {
        return Some(Refused);
      }
      var id := if |db.records| == 0 then 1 else db.records[|db.records| - 1].id + 1;
      var tx := db.(records := db.records + [RecordRow(id, record)], version := db.version + 1);
      r := Commit(Ok(tx), commits);
    }

    method DeleteRecord(id: nat, commits: bool) returns (r: Option<Error>)
      modifies this
      ensures Does(old(db), Write.DeleteRecord(id), commits, r, db)
      ensures r == None ==> forall row :: row in db.records <==> row in old(db).records && row.id != id
      ensures r == Some(NotFound) <==> forall row :: row in old(db).records ==> row.id != id
    {
      var rest := WithoutRecord(db.records, id);
      RestIsTheOthers(db.records, id);
      if forall row :: row in db.records ==> row.id != id { RestIsAll(db.records, id); }
      if |rest| == |db.records| {
        return Some(NotFound);
      }
      var tx := db.(records := rest, version := db.version + (|db.records| - |rest|));
      r := Commit(Ok(tx), commits);
    }

    method ReplaceAll(views: seq<View>, svcs: seq<Service>, records: seq<Record>, commits: bool)
      returns (r: Option<Error>)
      modifies this
      ensures Does(old(db), Write.ReplaceAll(views, svcs, records), commits, r, db)
    {
      var tx := ReplaceAllIn(db, views, svcs, records);
      r := Commit(tx, commits);
    }

    method PutSettings(v: Settings<Strings>, commits: bool) returns (r: Option<Error>)
      modifies this
      ensures Does(old(db), Write.PutSettings(v), commits, r, db)
      ensures r == None ==> db == old(db).(settings := Some(RowOf(v)), version := db.version)
    {
      var row := RowOf(v);
      var tx := db.(settings := Some(row));
      // The trigger looks at the thirteen replicated columns.
      if db.settings.None? || db.settings.value.shared != row.shared {
        tx := tx.(version := tx.version + 1);
      }
      r := Commit(Ok(tx), commits);
    }

    // Settings and records in one transaction, or neither.
    method PutSettingsRenamingZone(v: Settings<Strings>, from: string, to: string, commits: bool)
      returns (r: Option<Error>, moved: nat)
      modifies this
      ensures Does(old(db), Write.PutSettingsRenamingZone(v, from, to), commits, r, db)
      ensures r == None ==> RecordsOf(db.records) == MovedBetween(RecordsOf(old(db).records), from, to)
    {
      MovedRecords(db.records, ZoneRename.ZoneSuffix(from), ZoneRename.ZoneSuffix(to));
      var tx := SettingsPut(db, v);
      var rows;
      rows, moved := MoveRows(tx.records, ZoneRename.ZoneSuffix(from), ZoneRename.ZoneSuffix(to));
      r := Commit(Ok(Bumped(tx.(records := rows), moved)), commits);
      if !commits {
        moved := 0;
      }
    }

    // The eight columns a replica may save, in one statement: the row's other seventeen
    // stay, with every table, the version and all that is shared. Only a missing row or a
    // failing commit refuses the save, and then nothing has happened.
    method PutDHCPSettings(dhcp: DHCP, commits: bool) returns (r: Option<Error>)
      modifies this
      ensures Does(old(db), Write.PutDHCPSettings(dhcp), commits, r, db)
      ensures r == None <==> commits && old(db).settings.Some?
      ensures r != None ==> db == old(db)
      ensures r == None ==>
        && db.settings.Some? && db.settings.value.dhcp == dhcp
        && db.settings.value.shared == old(db).settings.value.shared
        && db.settings.value.local == old(db).settings.value.local
        && db.(settings := None) == old(db).(settings := None)
      ensures Quiet(old(db), db)
    {
      if db.settings.None? {
        return Some(NoSettings);
      }
      var row := db.settings.value;
      var columns := row.dhcp.(enabled := dhcp.enabled, iface := dhcp.iface, rangeStart := dhcp.rangeStart,
        rangeEnd := dhcp.rangeEnd, gateway := dhcp.gateway, leaseSeconds := dhcp.leaseSeconds,
        secondaryDNS := dhcp.secondaryDNS, allowForeign := dhcp.allowForeign);
      r := Commit(Ok(db.(settings := Some(row.(dhcp := columns)))), commits);
    }

    method SetBlacklistSettings(b: BlacklistSettings, commits: bool) returns (r: Option<Error>)
      modifies this
      ensures Does(old(db), Write.SetBlacklistSettings(b), commits, r, db)
    {
      var columns := db.blacklist.(enabled := b.enabled, blockTTL := b.blockTTL);
      r := Commit(Ok(db.(blacklist := columns, version := db.version + 1)), commits);
    }

    // A definition written; whatever was downloaded for the list stays with it, under
    // its new name too.
    method PutBlacklistList(handle: Option<string>, l: ListDef, commits: bool) returns (r: Option<Error>)
      modifies this
      ensures Does(old(db), Write.PutBlacklistList(handle, l), commits, r, db)
      ensures r == None ==> l.name in db.lists
      ensures r == None ==> db.lists[l.name].body == if handle.Some? then old(db).lists[handle.value].body else NO_BODY
    {
      match handle {
        case None =>
          if l.name in db.lists {
            return Some(DuplicateName);
          }
          var tx := db.(lists := db.lists[l.name := ListRow(l, NO_BODY)], version := db.version + 1);
          r := Commit(Ok(tx), commits);
        case Some(h) =>
          if h !in db.lists {
            return Some(NotFound);
          }
          if l.name != h && l.name in db.lists {
            return Some(DuplicateName);
          }
          var was := db.lists[h];
          var row :=
            was.(def := ListDef(l.name, l.url, l.format, l.description, l.enabled, was.def.builtin, l.interval));
          var tx := db.(lists := (db.lists - {h})[l.name := row]);
          if row.def != was.def {
            tx := tx.(version := tx.version + 1);
          }
          r := Commit(Ok(tx), commits);
      }
    }

    method DeleteBlacklistList(name: string, commits: bool) returns (r: Option<Error>)
      modifies this
      ensures Does(old(db), Write.DeleteBlacklistList(name), commits, r, db)
    {
      if name !in db.lists {
        return Some(NotFound);
      }
      r := Commit(Ok(db.(lists := db.lists - {name}, version := db.version + 1)), commits);
    }

    method SetBlacklistSnapshot(name: string, domains: seq<string>, skipped: int, etag: string, lastModified: string,
                                at: int, commits: bool)
      returns (r: Option<Error>)
      modifies this
      ensures Does(old(db), Write.SetBlacklistSnapshot(name, domains, skipped, etag, lastModified, at), commits, r, db)
    {
      if name !in db.lists {
        return Some(NotFound);
      }
      var row := db.lists[name];
      var body := row.body.(domains := domains, entries := |domains|, skipped := skipped, etag := etag,
        lastModified := lastModified, okAt := at, attemptAt := at, error := "");
      r := Commit(Ok(db.(lists := db.lists[name := row.(body := body)])), commits);
    }

    method PutBlacklistRule(rule: Rule, commits: bool) returns (r: Option<Error>)
      modifies this
      ensures Does(old(db), Write.PutBlacklistRule(rule), commits, r, db)
    {
      if rule.domain in db.rules {
        return Some(DuplicateName);
      }
      r := Commit(Ok(db.(rules := db.rules[rule.domain := rule.kind], version := db.version + 1)), commits);
    }

    method DeleteBlacklistRule(domain: string, commits: bool) returns (r: Option<Error>)
      modifies this
      ensures Does(old(db), Write.DeleteBlacklistRule(domain), commits, r, db)
    {
      if domain !in db.rules {
        return Some(NotFound);
      }
      r := Commit(Ok(db.(rules := db.rules - {domain}, version := db.version + 1)), commits);
    }

    // The bodies first, address by address, the last row read deciding where two lists
    // share one.
    method BodiesByURL() returns (kept: map<string, Body>)
      ensures BodiesOf(db.lists, kept)
    {
      kept := map[];
      var rest := db.lists.Keys;
      while rest != {}
        invariant rest <= db.lists.Keys
        invariant forall n :: n in db.lists && n !in rest ==> db.lists[n].def.url in kept
        invariant forall u :: u in kept ==>
          exists n :: n in db.lists && db.lists[n].def.url == u && db.lists[n].body == kept[u]
        decreases rest
      {
        var n :| n in rest;
        rest := rest - {n};
        kept := kept[db.lists[n].def.url := db.lists[n].body];
      }
    }

    // A whole imported policy: the bodies read, then everything written in one
    // transaction.
    method ReplaceBlacklist(b: BlacklistSettings, ls: seq<ListDef>, rs: seq<Rule>, commits: bool)
      returns (r: Option<Error>, ghost kept: map<string, Body>)
      modifies this
      ensures BodiesOf(old(db).lists, kept)
      ensures Does(old(db), Write.ReplaceBlacklist(kept, b, ls, rs), commits, r, db)
    {
      var bodies := BodiesByURL();
      kept := bodies;
      var tx := ImportPolicyIn(db, bodies, b, ls, rs);
      r := Commit(tx, commits);
    }

    // All replicated state in one transaction.
    method ApplySnapshot(input: Input, commits: bool) returns (r: Option<Error>)
      modifies this
      ensures Does(old(db), Write.ApplySnapshot(input), commits, r, db)
    {
      var tx := ApplySnapshotIn(db, input);
      r := Commit(tx, commits);
      DoesApply(old(db), input, commits, r, db);
    }

    method SetReplicaState(primary: string, held: nat, commits: bool) returns (r: Option<Error>)
      modifies this
      ensures Does(old(db), Write.SetReplicaState(primary, held), commits, r, db)
    {
      r := Commit(Ok(db.(node := db.node.(primary := primary, held := held))), commits);
    }

    method RecordPromotion(at: int, commits: bool) returns (r: Option<Error>)
      modifies this
      ensures Does(old(db), Write.RecordPromotion(at), commits, r, db)
    {
      r := Commit(Ok(db.(node := db.node.(promotedAt := Some(at)))), commits);
    }

    // The pin and the end of any promotion, together.
    method FollowPrimary(primary: string, held: nat, commits: bool) returns (r: Option<Error>)
      modifies this
      ensures Does(old(db), Write.FollowPrimary(primary, held), commits, r, db)
    {
      var tx := db.(node := db.node.(primary := primary, held := held));
      tx := tx.(node := tx.node.(promotedAt := None));
      r := Commit(Ok(tx), commits);
    }

    // ----- queries -----

    method Views() returns (vs: seq<View>)
      ensures ReadsViews(vs, ConfigOf(db)) && ViewsInOrder(vs)
    {
      vs := [];
      var names := SortedList(db.views);
      for i := 0 to |names|
        invariant ViewListOf(vs, names[..i]) && ViewsInOrder(vs)
        invariant forall v :: v in vs ==> ViewRead(v, ConfigOf(db))
      {
        assert names[..i + 1] == names[..i] + [names[i]];
        var subnets := SortedKeys(db.subnets, names[i]);
        OneMoreView(vs, names, i, View(names[i], subnets));
        vs := vs + [View(names[i], subnets)];
      }
      assert names[..|names|] == names;
      ViewsListed(vs, names, db.views);
    }

    method ReadService(n: string) returns (svc: Service)
      requires n in db.services
      ensures svc.name == n && ReadsService(svc, ConfigOf(db)) && Texts.Ascending(svc.aliases)
    {
      var aliases := SortedKeys(db.aliases, n);
      svc := Service(n, db.services[n], AddressesOf(db.addresses, n), aliases);
    }

    method Services() returns (svcs: seq<Service>)
      ensures ReadsServices(svcs, ConfigOf(db)) && ServicesInOrder(svcs)
    {
      svcs := [];
      var names := SortedList(db.services.Keys);
      for i := 0 to |names|
        invariant ServiceListOf(svcs, names[..i]) && ServicesInOrder(svcs)
        invariant forall s :: s in svcs ==> ReadsService(s, ConfigOf(db))
      {
        assert names[..i + 1] == names[..i] + [names[i]];
        var svc := ReadService(names[i]);
        OneMoreService(svcs, names, i, svc);
        svcs := svcs + [svc];
      }
      assert names[..|names|] == names;
      ServicesListed(svcs, names, db.services.Keys);
    }

    method Records() returns (rs: seq<Record>)
      ensures ReadsRecords(rs, ConfigOf(db))
    {
      rs := RecordsOf(db.records);
    }

    method ReadSettings() returns (v: Option<Settings<Strings>>)
      ensures v.None? <==> db.settings.None?
      ensures v.Some? ==> ReadsSettings(v.value, ConfigOf(db)) && RowOf(v.value) == db.settings.value
    {
      match db.settings
      case None =>
        v := None;
      case Some(row) =>
        StoredTextSurvives(row);
        v := Some(ValueOf(row));
    }

    method Lists() returns (ls: seq<ListDef>)
      requires Named(db)
      ensures ReadsLists(ls, ConfigOf(db))
    {
      ls := [];
      var rest := db.lists.Keys;
      while rest != {}
        invariant rest <= db.lists.Keys && ListsDiffer(ls)
        invariant NamesOf(ls) == db.lists.Keys - rest
        invariant forall l :: l in ls ==> l.name in db.lists && db.lists[l.name].def == l
        decreases rest
      {
        var n :| n in rest;
        rest := rest - {n};
        assert forall l :: l in ls ==> l.name in NamesOf(ls);
        assert NamesOf(ls + [db.lists[n].def]) == NamesOf(ls) + {n};
        ls := ls + [db.lists[n].def];
      }
    }

    method Rules() returns (rs: seq<Rule>)
      ensures ReadsRules(rs, ConfigOf(db))
    {
      rs := [];
      var rest := db.rules.Keys;
      while rest != {}
        invariant rest <= db.rules.Keys && RulesDiffer(rs)
        invariant Domains(rs) == db.rules.Keys - rest
        invariant forall r :: r in rs ==> r.domain in db.rules && db.rules[r.domain] == r.kind
        decreases rest
      {
        var d :| d in rest;
        rest := rest - {d};
        var r := Rule(db.rules[d], d);
        assert forall k :: k in rs ==> k.domain in Domains(rs);
        assert Domains(rs + [r]) == Domains(rs) + {d};
        rs := rs + [r];
      }
    }
  }

  lemma LeastIsLess(m: string, s: set<string>)
    requires Texts.IsLeast(m, s)
    ensures forall k :: k in s - {m} ==> Texts.Less(m, k)
  {
    forall k | k in s - {m} ensures Texts.Less(m, k) {
      assert k in s && k != m;
    }
  }

  // A set of texts in the order the database sorts them.
  method SortedList(names: set<string>) returns (list: seq<string>)
    ensures Texts.Ascending(list) && forall n :: n in list <==> n in names
  {
    list := [];
    var rest := names;
    while rest != {}
      invariant rest <= names && Texts.Ascending(list)
      invariant forall n :: n in list <==> n in names - rest
      invariant forall n, k :: n in list && k in rest ==> Texts.Less(n, k)
      decreases rest
    {
      ghost var least := Texts.SomeIsLeast(rest);
      var m :| m in rest && Texts.IsLeast(m, rest);
      Texts.AscendingGrows(list, m);
      LeastIsLess(m, rest);
      list, rest := list + [m], rest - {m};
    }
  }

  // The keys one owner holds, each once, in order.
  method SortedKeys(m: map<string, string>, owner: string) returns (keys: seq<string>)
    ensures Distinct(keys) && HoldsOf(keys, m, owner) && Texts.Ascending(keys)
  {
    keys := SortedList(OwnedBy(m, owner));
    AscendingIsDistinct(keys);
  }
}
