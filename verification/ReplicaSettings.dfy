/** The settings of a replica: pulls and saves landing in any order on one row, and the
    running snapshot catching up with it. */
module ReplicaSettings {
  import opened Wrappers
  import opened Tables
  import StoreFacts
  import SnapshotFacts
  import StoredRows
  import opened SettingsRules
  import StoreObject
  import Net
  import ZoneRename

  // ----- the write path -----

  datatype SetError = ReadOnlyReplica | Invalid(field: string) | NotStored

  // Nothing outside the eight DHCP columns differs.
  predicate DhcpOnlyChange(prev: Settings<Strings>, v: Settings<Strings>) {
    prev.shared == v.shared && prev.local == v.local
  }

  // A save that renames the private domain moves the records with it.
  function SaveOf(v: Settings<Strings>, from: string, to: string): Write {
    if from != "" && from != to then PutSettingsRenamingZone(v, from, to) else PutSettings(v)
  }

  function Running(cur: Option<Snapshot>): Settings<Strings> {
    match cur case None => NO_SETTINGS case Some(s) => s.raw
  }

  // Why a replica refuses a save, if it does.
  function Refusal(x: Syntax, private: Net.Prefix -> bool, prev: Settings<Strings>, v: Settings<Strings>,
                   confirm: string): Option<SetError> {
    if !DhcpOnlyChange(prev, v) then Some(ReadOnlyReplica)
    else match ValidateWrite(x, private, v, prev, confirm)
      case Some(field) => Some(Invalid(field))
      case None => None
  }

  // A save that changes only DHCP never asks for exposure to be confirmed again: it is
  // refused exactly when a rule refuses the row.
  lemma RefusedExactly(x: Syntax, private: Net.Prefix -> bool, prev: Settings<Strings>, v: Settings<Strings>,
                       confirm: string)
    ensures Refusal(x, private, prev, v, confirm) == None <==> DhcpOnlyChange(prev, v) && Stored(x, v)
  {
    if DhcpOnlyChange(prev, v) {
      forall c | c in v.shared.allowQuery.All()
        ensures Confirmed(x, private, c, prev.shared.allowQuery.All(), confirm) {
        assert c in prev.shared.allowQuery.All();
      }
    }
  }

  class Holder {
    var cur: Option<Snapshot>

    constructor ()
      ensures cur == None
    {
      cur := None;
    }

    // The row as it is now, built whole, then swapped in; any error leaves what runs.
    method Rebuild(x: Syntax, store: StoreObject.Store, readable: bool) returns (ok: bool)
      modifies this
      ensures ok <==> readable && store.db.settings.Some? && Build(x, ValueOf(store.db.settings.value)).Ok?
      ensures cur == if ok then Some(Build(x, ValueOf(store.db.settings.value)).value) else old(cur)
    {
      ok := false;
      if !readable || store.db.settings.None? {
        return;
      }
      var built := BuildSnapshot(x, ValueOf(store.db.settings.value));
      if built.Ok? {
        cur := Some(built.value);
        ok := true;
      }
    }
  }

  class Service {
    const x: Syntax
    const private: Net.Prefix -> bool
    const store: StoreObject.Store
    const holder: Holder

    constructor (x: Syntax, private: Net.Prefix -> bool, store: StoreObject.Store, holder: Holder)
      ensures this.x == x && this.private == private && this.store == store && this.holder == holder
    {
      this.x, this.private, this.store, this.holder := x, private, store, holder;
    }

    // The one path by which settings change, here with nothing else landing meanwhile.
    method Set(v: Settings<Strings>, confirm: string, isReplica: bool, commits: bool, readable: bool)
      returns (e: Option<SetError>)
      modifies store, holder
      ensures isReplica ==>
        SetOnReplica(x, private, old(store.db), old(holder.cur), v, confirm, commits, readable, e, store.db, holder.cur)
      ensures !isReplica ==>
        SetOnPrimary(x, private, old(store.db), old(holder.cur), v, confirm, commits, e, store.db, holder.cur)
    {
      if isReplica {
        e := SetDHCPOnly(v, Running(holder.cur), confirm, commits, readable);
      } else {
        e := SetWhole(v, Running(holder.cur), confirm, commits);
      }
    }

    method SetWhole(v: Settings<Strings>, prev: Settings<Strings>, confirm: string, commits: bool)
      returns (e: Option<SetError>)
      requires prev == Running(holder.cur)
      modifies store, holder
      ensures SetOnPrimary(x, private, old(store.db), old(holder.cur), v, confirm, commits, e, store.db, holder.cur)
    {
      var bad := ValidateWrite(x, private, v, prev, confirm);
      if bad.Some? {
        return Some(Invalid(bad.value));
      }
      var canonical := Canonicalized(x, v);
      var built := BuildSnapshot(x, canonical);
      if built.Err? {
        return Some(Invalid(built.error));
      }
      var from, to := ZoneRename.ZoneSuffix(prev.shared.privateDomain), ZoneRename.ZoneSuffix(v.shared.privateDomain);
      var r := Store(canonical, from, to, commits);
      if r.Some? {
        return Some(NotStored);
      }
      holder.cur := Some(built.value);
      return None;
    }

    // The records move with a renamed zone, in the same transaction.
    method Store(v: Settings<Strings>, from: string, to: string, commits: bool) returns (r: Option<Error>)
      modifies store
      ensures (r == None) == commits
      ensures store.db == if commits then Tables.After(old(store.db), SaveOf(v, from, to)) else old(store.db)
    {
      if from != "" && from != to {
        var moved;
        r, moved := store.PutSettingsRenamingZone(v, from, to, commits);
      } else {
        r := store.PutSettings(v, commits);
      }
    }

    method WhyNot(v: Settings<Strings>, prev: Settings<Strings>, confirm: string) returns (why: Option<SetError>)
      ensures why == Refusal(x, private, prev, v, confirm)
    {
      if !(prev.shared == v.shared && prev.local == v.local) {
        return Some(ReadOnlyReplica);
      }
      var bad := ValidateWrite(x, private, v, prev, confirm);
      return if bad.Some? then Some(Invalid(bad.value)) else None;
    }

    method SetDHCPOnly(v: Settings<Strings>, prev: Settings<Strings>, confirm: string, commits: bool, readable: bool)
      returns (e: Option<SetError>)
      requires prev == Running(holder.cur)
      modifies store, holder
      ensures SetOnReplica(x, private, old(store.db), old(holder.cur), v, confirm, commits, readable, e, store.db,
                           holder.cur)
    {
      e := WhyNot(v, prev, confirm);
      if e.Some? {
        return;
      }
      var r := store.PutDHCPSettings(v.dhcp, commits);
      if r.Some? {
        return Some(NotStored);
      }
      var ok := holder.Rebuild(x, store, readable);
      if !ok {
        return Some(NotStored);
      }
      return None;
    }
  }

  // A replica's save: refused whole, or only the eight columns written and what runs
  // rebuilt from the row.
  ghost predicate SetOnReplica(x: Syntax, private: Net.Prefix -> bool, before: Db, cur: Option<Snapshot>,
                               v: Settings<Strings>, confirm: string,
                               commits: bool, readable: bool, e: Option<SetError>, after: Db, now: Option<Snapshot>) {
    var why := Refusal(x, private, Running(cur), v, confirm);
    if why.Some? then e == why && after == before && now == cur
    else if !commits || before.settings.None? then e == Some(NotStored) && after == before && now == cur
    else
      && after == Tables.After(before, PutDHCPSettings(v.dhcp))
      && (e.None? <==> readable && Build(x, ValueOf(after.settings.value)).Ok?)
      && now == if e.None? then Some(Build(x, ValueOf(after.settings.value)).value) else cur
  }

  // A primary's save: the canonical row stored, with the records moved when the zone
  // does, and the snapshot built from that row running.
  ghost predicate SetOnPrimary(x: Syntax, private: Net.Prefix -> bool, before: Db, cur: Option<Snapshot>,
                               v: Settings<Strings>, confirm: string,
                               commits: bool, e: Option<SetError>, after: Db, now: Option<Snapshot>) {
    var prev := Running(cur);
    var bad := ValidateWrite(x, private, v, prev, confirm);
    var c := Canonicalized(x, v);
    var from, to := ZoneRename.ZoneSuffix(prev.shared.privateDomain), ZoneRename.ZoneSuffix(v.shared.privateDomain);
    if bad.Some? then e == Some(Invalid(bad.value)) && after == before && now == cur
    else if Build(x, c).Err? then e == Some(Invalid(Build(x, c).error)) && after == before && now == cur
    else if !commits then e == Some(NotStored) && after == before && now == cur
    else
      && e == None && now == Some(Build(x, c).value)
      && after == Tables.After(before, SaveOf(c, from, to))
  }

  // ----- a save and a pull commute -----

  function WithSettings(r: Result<Db, Error>, s: Option<Settings<string>>): Result<Db, Error> {
    match r case Err(e) => Err(e) case Ok(d) => Ok(d.(settings := s))
  }

  lemma ViewBeside(db: Db, s: Option<Settings<string>>, v: View)
    ensures ViewPut(db.(settings := s), v) == WithSettings(ViewPut(db, v), s)
  {
    assert ViewCleared(db.(settings := s), v.name) == ViewCleared(db, v.name).(settings := s);
  }

  lemma {:induction false} ViewsBeside(db: Db, s: Option<Settings<string>>, vs: seq<View>)
    ensures ViewsPut(db.(settings := s), vs) == WithSettings(ViewsPut(db, vs), s)
  {
    if vs != [] {
      ViewsBeside(db, s, vs[..|vs| - 1]);
      if ViewsPut(db, vs[..|vs| - 1]).Ok? { ViewBeside(ViewsPut(db, vs[..|vs| - 1]).value, s, vs[|vs| - 1]); }
    }
  }

  lemma ServiceBeside(db: Db, s: Option<Settings<string>>, svc: Tables.Service)
    ensures ServicePut(db.(settings := s), None, svc) == WithSettings(ServicePut(db, None, svc), s)
  {
    var d := Bumped(db.(services := db.services[svc.name := svc.row]), 1);
    assert forall a: string :: ViewKnown(d, a) == ViewKnown(d.(settings := s), a);
  }

  lemma {:induction false} ServicesBeside(db: Db, s: Option<Settings<string>>, svcs: seq<Tables.Service>)
    ensures ServicesPut(db.(settings := s), svcs) == WithSettings(ServicesPut(db, svcs), s)
  {
    if svcs != [] {
      ServicesBeside(db, s, svcs[..|svcs| - 1]);
      if ServicesPut(db, svcs[..|svcs| - 1]).Ok? {
        ServiceBeside(ServicesPut(db, svcs[..|svcs| - 1]).value, s, svcs[|svcs| - 1]);
      }
    }
  }

  lemma {:induction false} RecordsBeside(db: Db, s: Option<Settings<string>>, rs: seq<Record>)
    ensures RecordsPut(db.(settings := s), rs) == WithSettings(RecordsPut(db, rs), s)
  {
    if rs != [] { RecordsBeside(db, s, rs[..|rs| - 1]); }
  }

  lemma RegistryBeside(db: Db, s: Option<Settings<string>>, vs: seq<View>, svcs: seq<Tables.Service>, rs: seq<Record>)
    ensures RegistryReplaced(db.(settings := s), vs, svcs, rs) == WithSettings(RegistryReplaced(db, vs, svcs, rs), s)
  {
    var a := Wiped(db);
    assert Wiped(db.(settings := s)) == a.(settings := s);
    ViewsBeside(a, s, vs);
    if ViewsPut(a, vs).Ok? {
      var b := ViewsPut(a, vs).value;
      ServicesBeside(b, s, svcs);
      if ServicesPut(b, svcs).Ok? { RecordsBeside(ServicesPut(b, svcs).value, s, rs); }
    }
  }

  lemma ListBeside(db: Db, s: Option<Settings<string>>, before: map<string, ListRow>, l: ListDef)
    ensures ListApplied(db.(settings := s), before, l) == WithSettings(ListApplied(db, before, l), s)
  {
  }

  lemma {:induction false} ListsBeside(db: Db, s: Option<Settings<string>>, before: map<string, ListRow>,
                                       ls: seq<ListDef>)
    ensures ListsApplied(db.(settings := s), before, ls) == WithSettings(ListsApplied(db, before, ls), s)
  {
    if ls != [] {
      ListsBeside(db, s, before, ls[..|ls| - 1]);
      var r := ListsApplied(db, before, ls[..|ls| - 1]);
      if r.Ok? { ListBeside(r.value, s, before, ls[|ls| - 1]); }
    }
  }

  lemma {:induction false} RulesBeside(db: Db, s: Option<Settings<string>>, rs: seq<Rule>)
    ensures RulesPut(db.(settings := s), rs) == WithSettings(RulesPut(db, rs), s)
  {
    if rs != [] { RulesBeside(db, s, rs[..|rs| - 1]); }
  }

  lemma PrunedBeside(d: Db, s: Option<Settings<string>>, before: map<string, ListRow>, incoming: set<string>)
    ensures RulesWiped(ListsPruned(d.(settings := s), before, incoming)) ==
      RulesWiped(ListsPruned(d, before, incoming)).(settings := s)
  {
  }

  lemma BlacklistBeside(db: Db, s: Option<Settings<string>>, b: BlacklistSettings, ls: seq<ListDef>, rs: seq<Rule>)
    ensures BlacklistReplaced(db.(settings := s), b, ls, rs) == WithSettings(BlacklistReplaced(db, b, ls, rs), s)
  {
    var start := BlacklistPut(db, b);
    assert BlacklistPut(db.(settings := s), b) == start.(settings := s);
    ListsBeside(start, s, db.lists, ls);
    if ListsApplied(start, db.lists, ls).Ok? {
      var d := ListsApplied(start, db.lists, ls).value;
      PrunedBeside(d, s, db.lists, NamesOf(ls));
      RulesBeside(RulesWiped(ListsPruned(d, db.lists, NamesOf(ls))), s, rs);
    }
  }

  function WithDHCP(db: Db, d: DHCP): Db
    requires db.settings.Some?
  {
    db.(settings := Some(db.settings.value.(dhcp := d)))
  }

  lemma SettingsBeside(e: Db, d: DHCP, v: Settings<Strings>)
    requires e.settings.Some?
    ensures var merged := MergedSettings(e, v);
      SettingsPut(WithDHCP(e, d), MergedSettings(WithDHCP(e, d), v)) ==
        SettingsPut(e, merged).(settings := Some(RowOf(merged.(dhcp := d))))
  {
  }

  lemma AppliedBeside(db: Db, d: DHCP, input: Input)
    requires db.settings.Some?
    ensures SnapshotApplied(WithDHCP(db, d), input)
      == WithSettings(SnapshotApplied(db, input), Some(RowOf(MergedSettings(db, input.settings).(dhcp := d))))
  {
    RegistryBeside(db, WithDHCP(db, d).settings, input.views, input.services, input.records);
    if RegistryReplaced(db, input.views, input.services, input.records).Ok? {
      SnapshotFacts.RegistryGives(db, input.views, input.services, input.records);
      var e := RegistryReplaced(db, input.views, input.services, input.records).value;
      SettingsBeside(e, d, input.settings);
      BlacklistBeside(SettingsPut(e, MergedSettings(e, input.settings)),
                      Some(RowOf(MergedSettings(db, input.settings).(dhcp := d))),
                      input.blacklist, input.lists, input.rules);
    }
  }

  // A save of the eight columns and a pulled snapshot give the same database, to the last
  // version and row, whichever commits first.
  lemma SavesAndPullsCommute(db: Db, d: DHCP, input: Input)
    requires db.settings.Some?
    ensures Tables.After(Tables.After(db, ApplySnapshot(input)), PutDHCPSettings(d)) ==
      Tables.After(Tables.After(db, PutDHCPSettings(d)), ApplySnapshot(input))
  {
    assert Tables.After(db, PutDHCPSettings(d)) == WithDHCP(db, d);
    ApplyOf(db, input);
    ApplyOf(WithDHCP(db, d), input);
    AppliedBeside(db, d, input);
    if SnapshotApplied(db, input).Ok? {
      SnapshotFacts.SnapshotLands(db, input);
      DHCPSaved(SnapshotApplied(db, input).value, d);
    }
  }

  lemma ApplyOf(db: Db, input: Input)
    ensures Tables.After(db, ApplySnapshot(input)) ==
      if SnapshotApplied(db, input).Ok? then SnapshotApplied(db, input).value else db
  {
  }

  lemma DHCPSaved(db: Db, d: DHCP)
    requires db.settings.Some?
    ensures Tables.After(db, PutDHCPSettings(d)) == WithDHCP(db, d)
  {
  }

  // ----- any interleaving of pulls and saves -----

  type Id = nat

  datatype Task =
    | Accepted(v: Settings<Strings>)       // a save found good against what ran then
    | Owed                                     // the row written, the rebuild to come
    | Holding(row: Settings<string>)           // the rebuild's lock held, the row read

  datatype System = System(
    db: Db,
    cur: Option<Snapshot>,
    tasks: map<Id, Task>,
    missed: bool,                              // a rebuild failed to read, and none has read since
    shared: Replicated<string>,                // of the last snapshot applied
    dhcp: DHCP)                                // of the last save written

  datatype World = World(x: Syntax, private: Net.Prefix -> bool, local: NodeLocal)

  datatype Step =
    | Pull(task: Id, input: Input)
    | Check(task: Id, v: Settings<Strings>, confirm: string)
    | Write(task: Id)
    | Read(task: Id)
    | ReadFails(task: Id)
    | Swap(task: Id)

  ghost predicate Locked(s: System) { exists t :: t in s.tasks && s.tasks[t].Holding? }

  ghost predicate Enabled(w: World, s: System, e: Step) {
    match e
    case Pull(t, input) => t !in s.tasks && SnapshotApplied(s.db, input).Ok?
    case Check(t, v, confirm) => t !in s.tasks && Refusal(w.x, w.private, Running(s.cur), v, confirm) == None
    case Write(t) => t in s.tasks && s.tasks[t].Accepted?
    case Read(t) => t in s.tasks && s.tasks[t].Owed? && !Locked(s) && s.db.settings.Some?
    case ReadFails(t) => t in s.tasks && s.tasks[t].Owed? && !Locked(s)
    case Swap(t) => t in s.tasks && s.tasks[t].Holding?
  }

  ghost function Then(w: World, s: System, e: Step): System
    requires Enabled(w, s, e)
  {
    var t := e.task;
    match e
    case Pull(_, input) =>
      s.(db := Tables.After(s.db, ApplySnapshot(input)), tasks := s.tasks[t := Owed],
         shared := Pack(input.settings.shared))
    case Check(_, v, _) => s.(tasks := s.tasks[t := Accepted(v)])
    case Write(_) =>
      s.(db := Tables.After(s.db, PutDHCPSettings(s.tasks[t].v.dhcp)), tasks := s.tasks[t := Owed],
         dhcp := s.tasks[t].v.dhcp)
    case Read(_) => s.(tasks := s.tasks[t := Holding(s.db.settings.value)], missed := false)
    case ReadFails(_) => s.(tasks := s.tasks - {t}, missed := true)
    case Swap(_) =>
      var built := Build(w.x, ValueOf(s.tasks[t].row));
      s.(cur := if built.Ok? then Some(built.value) else s.cur, tasks := s.tasks - {t})
  }

  // What the rules say of a replicated half as it reads back here, and of everything else.
  predicate SharedIsGood(w: World, shared: Replicated<string>) {
    CheckShared(w.x, Unpack(shared), w.local.discoveryInterval) == None
  }

  predicate RestIsGood(w: World, d: DHCP) {
    (w.local.dhcpLeaseFile != "" ==> w.x.isAbs(w.local.dhcpLeaseFile)) && CheckDHCP(w.x, w.local, d) == None
  }

  lemma HalvesAreJudgedApart(w: World, shared: Replicated<string>, d: DHCP)
    ensures Stored(w.x, ValueOf(Settings(shared, w.local, d))) <==> SharedIsGood(w, shared) && RestIsGood(w, d)
  {
  }

  // The row as it must be. Nothing looks at a pulled half before it is written.
  predicate RowInv(w: World, s: System) {
    s.db.settings == Some(Settings(s.shared, w.local, s.dhcp)) && RestIsGood(w, s.dhcp)
  }

  predicate TaskInv(w: World, k: Task) {
    match k
    case Accepted(v) => RestIsGood(w, v.dhcp) && v.local == w.local
    case Owed => true
    case Holding(row) => row.local == w.local
  }

  ghost predicate TasksInv(w: World, s: System) {
    && (forall t :: t in s.tasks ==> TaskInv(w, s.tasks[t]))
    && (forall t, u :: t in s.tasks && u in s.tasks && s.tasks[t].Holding? && s.tasks[u].Holding? ==> t == u)
    && (s.cur.Some? ==> s.cur.value.raw.local == w.local)
  }

  predicate Runs(w: World, s: System) {
    s.db.settings.Some? && s.cur.Some? && Build(w.x, ValueOf(s.db.settings.value)) == Ok(s.cur.value)
  }

  predicate RunsIfBuilt(w: World, s: System) {
    s.db.settings.Some? && Build(w.x, ValueOf(s.db.settings.value)).Ok? ==> Runs(w, s)
  }

  // No write without its rebuild begun: who holds the lock has read the row as it is, and
  // with nobody holding it the row is what runs, if anything can be built from it.
  ghost predicate CaughtUp(w: World, s: System) {
    !s.missed && (forall t :: t in s.tasks ==> !s.tasks[t].Owed?) ==>
      && (forall t :: t in s.tasks && s.tasks[t].Holding? ==> Some(s.tasks[t].row) == s.db.settings)
      && (!Locked(s) ==> RunsIfBuilt(w, s))
  }

  ghost predicate Inv(w: World, s: System) {
    RowInv(w, s) && TasksInv(w, s) && CaughtUp(w, s) && w.x.prefix(TAILSCALE_CGNAT).Some?
  }

  // As a replica comes up: its row accepted and running.
  ghost predicate Starts(w: World, s: System) {
    && s.tasks == map[] && !s.missed && RowInv(w, s) && SharedIsGood(w, s.shared) && Runs(w, s)
    && w.x.prefix(TAILSCALE_CGNAT).Some?
  }

  ghost predicate StepAt(w: World, states: seq<System>, steps: seq<Step>, i: nat)
    requires |states| == |steps| + 1 && i < |steps|
  {
    Enabled(w, states[i], steps[i]) && states[i + 1] == Then(w, states[i], steps[i])
  }

  ghost predicate Behaviour(w: World, states: seq<System>, steps: seq<Step>) {
    && |states| == |steps| + 1 && Starts(w, states[0])
    && forall i :: 0 <= i < |steps| ==> StepAt(w, states, steps, i)
  }

  lemma PullKeepsRow(w: World, s: System, e: Step)
    requires RowInv(w, s) && e.Pull? && Enabled(w, s, e)
    ensures RowInv(w, Then(w, s, e))
  {
    ApplyOf(s.db, e.input);
    SnapshotFacts.SnapshotLands(s.db, e.input);
  }

  lemma WriteKeepsRow(w: World, s: System, e: Step)
    requires RowInv(w, s) && e.Write? && Enabled(w, s, e) && TaskInv(w, s.tasks[e.task])
    ensures RowInv(w, Then(w, s, e))
  {
    DHCPSaved(s.db, s.tasks[e.task].v.dhcp);
  }

  lemma CheckKeepsTasks(w: World, s: System, e: Step)
    requires Inv(w, s) && e.Check? && Enabled(w, s, e)
    ensures Inv(w, Then(w, s, e))
  {
    RefusedExactly(w.x, w.private, Running(s.cur), e.v, e.confirm);
    AcceptedKeeps(w, s, Then(w, s, e), e.task, e.v);
  }

  // A save found good waits beside everything else.
  lemma AcceptedKeeps(w: World, s: System, t: System, task: Id, v: Settings<Strings>)
    requires Inv(w, s) && task !in s.tasks && TaskInv(w, Accepted(v)) && t == s.(tasks := s.tasks[task := Accepted(v)])
    ensures Inv(w, t)
  {
    assert forall u :: u in s.tasks ==> u in t.tasks && t.tasks[u] == s.tasks[u];
    StillLocked(s, t, task);
    assert TasksInv(w, t);
  }

  // A task that neither takes nor holds the lock changes nothing about it.
  lemma StillLocked(s: System, t: System, task: Id)
    requires forall u :: u in s.tasks && u != task ==> u in t.tasks && t.tasks[u] == s.tasks[u]
    requires forall u :: u in t.tasks && u != task ==> u in s.tasks
    requires task in s.tasks ==> !s.tasks[task].Holding?
    requires task in t.tasks ==> !t.tasks[task].Holding?
    ensures Locked(t) <==> Locked(s)
  {
    if Locked(s) {
      var u :| u in s.tasks && s.tasks[u].Holding?;
      assert u in t.tasks && t.tasks[u].Holding?;
    }
  }

  // After a write its task owes the rebuild, so nothing is claimed of what runs.
  lemma OwingKeeps(w: World, s: System, t: System, task: Id)
    requires TasksInv(w, s) && t.tasks == s.tasks[task := Owed] && t.cur == s.cur
    ensures TasksInv(w, t) && CaughtUp(w, t)
  {
    assert t.tasks[task].Owed?;
    assert forall u :: u in t.tasks && u != task ==> u in s.tasks && t.tasks[u] == s.tasks[u];
  }

  lemma WrittenKeeps(w: World, s: System, e: Step)
    requires Inv(w, s) && (e.Pull? || e.Write?) && Enabled(w, s, e)
    ensures Inv(w, Then(w, s, e))
  {
    if e.Pull? { PullKeepsRow(w, s, e); } else { WriteKeepsRow(w, s, e); }
    OwingKeeps(w, s, Then(w, s, e), e.task);
  }

  lemma ReadKeeps(w: World, s: System, e: Step)
    requires Inv(w, s) && e.Read? && Enabled(w, s, e)
    ensures Inv(w, Then(w, s, e))
  {
    var t := Then(w, s, e);
    assert t.tasks[e.task].Holding?;
    assert forall u :: u in t.tasks && u != e.task ==> u in s.tasks && t.tasks[u] == s.tasks[u] && !s.tasks[u].Holding?;
  }

  lemma SwapKeeps(w: World, s: System, e: Step)
    requires Inv(w, s) && e.Swap? && Enabled(w, s, e)
    ensures Inv(w, Then(w, s, e))
  {
    var t := Then(w, s, e);
    assert forall u :: u in t.tasks ==> u in s.tasks && t.tasks[u] == s.tasks[u] && u != e.task && !t.tasks[u].Holding?;
    if forall u :: u in t.tasks ==> !t.tasks[u].Owed? {
      forall u | u in s.tasks ensures !s.tasks[u].Owed? { if u != e.task { assert u in t.tasks; } }
    }
  }

  lemma StepKeeps(w: World, s: System, e: Step)
    requires Inv(w, s) && Enabled(w, s, e)
    ensures Inv(w, Then(w, s, e))
  {
    match e
    case Pull(_, _) => WrittenKeeps(w, s, e);
    case Check(_, _, _) => CheckKeepsTasks(w, s, e);
    case Write(_) => WrittenKeeps(w, s, e);
    case Read(_) => ReadKeeps(w, s, e);
    case ReadFails(_) =>
      assert forall u :: u in Then(w, s, e).tasks ==> u in s.tasks && Then(w, s, e).tasks[u] == s.tasks[u];
    case Swap(_) => SwapKeeps(w, s, e);
  }

  lemma {:induction false} InvHolds(w: World, states: seq<System>, steps: seq<Step>, i: nat)
    requires Behaviour(w, states, steps) && i < |states|
    ensures Inv(w, states[i])
  {
    if i > 0 {
      assert StepAt(w, states, steps, i - 1);
      InvHolds(w, states, steps, i - 1);
      StepKeeps(w, states[i - 1], steps[i - 1]);
    }
  }

  // At every moment the row is the replicated half of the last snapshot applied, the
  // eight columns of the last save written and the other four as they always were. No one
  // ever wrote it whole, and the rules accept it exactly when they accept the pulled half
  // as it reads back here: no save can spoil it, and none can mend it.
  lemma RowIsJoined(w: World, states: seq<System>, steps: seq<Step>, i: nat)
    requires Behaviour(w, states, steps) && i < |states|
    ensures states[i].db.settings == Some(Settings(states[i].shared, w.local, states[i].dhcp))
    ensures Stored(w.x, ValueOf(states[i].db.settings.value)) <==> SharedIsGood(w, states[i].shared)
  {
    InvHolds(w, states, steps, i);
    HalvesAreJudgedApart(w, states[i].shared, states[i].dhcp);
  }

  // The input: a row its primary accepted and then reads back with a line that is no
  // upstream. It is pulled, stored here, and nothing can be built from it.
  lemma BrokenRowArrives(w: World, s: System, e: Step, v: Settings<Strings>)
    requires StoredRows.Plain(w.x) && Stored(w.x, v) && !StoredRows.LinesParse(w.x, v.shared.upstreams.All())
    requires Inv(w, s) && e.Pull? && Enabled(w, s, e) && e.input.settings == StoredRows.ReadBack(v)
    ensures var t := Then(w, s, e);
      !SharedIsGood(w, t.shared) && t.db.settings.Some? && Build(w.x, ValueOf(t.db.settings.value)).Err?
  {
    StoreFacts.StoredTextSurvives(RowOf(v));
    PullKeepsRow(w, s, e);
    StoredRows.RowReadsBack(w.x, v);
    StoredRows.LinesParseExactly(w.x, v.shared.upstreams.All());
  }

  // A rebuild failed to read the row at step k, and none has read it since.
  predicate MissedAt(steps: seq<Step>, k: nat, i: nat)
    requires k < i <= |steps|
  {
    steps[k].ReadFails? && forall j :: k < j < i ==> !steps[j].Read?
  }

  predicate MissedBefore(steps: seq<Step>, i: nat)
    requires i <= |steps|
  {
    exists k: nat :: k < i && MissedAt(steps, k, i)
  }

  lemma OneMoreMissed(steps: seq<Step>, i: nat)
    requires i < |steps|
    ensures MissedBefore(steps, i + 1) <==> steps[i].ReadFails? || (!steps[i].Read? && MissedBefore(steps, i))
  {
    if steps[i].ReadFails? {
      assert MissedAt(steps, i, i + 1);
    } else if MissedBefore(steps, i) && !steps[i].Read? {
      var k: nat :| k < i && MissedAt(steps, k, i);
      assert MissedAt(steps, k, i + 1);
    } else if MissedBefore(steps, i + 1) {
      var k: nat :| k < i + 1 && MissedAt(steps, k, i + 1);
      assert k < i && MissedAt(steps, k, i);
    }
  }

  lemma {:induction false} MissedExactly(w: World, states: seq<System>, steps: seq<Step>, i: nat)
    requires Behaviour(w, states, steps) && i < |states|
    ensures states[i].missed <==> MissedBefore(steps, i)
  {
    if i > 0 {
      assert StepAt(w, states, steps, i - 1);
      MissedExactly(w, states, steps, i - 1);
      OneMoreMissed(steps, i - 1);
      MissedOf(w, states[i - 1], steps[i - 1]);
    }
  }

  lemma MissedOf(w: World, s: System, e: Step)
    requires Enabled(w, s, e)
    ensures Then(w, s, e).missed <==> e.ReadFails? || (!e.Read? && s.missed)
  {
  }

  // With every pull and every save ended, and no rebuild that failed to read the row left
  // unanswered, what runs is built from the row exactly when anything can be; and it can
  // when the rules accept the half last pulled.
  lemma AtRestTheRowRuns(w: World, states: seq<System>, steps: seq<Step>, i: nat)
    requires Behaviour(w, states, steps) && i < |states| && states[i].tasks == map[] && !MissedBefore(steps, i)
    ensures states[i].db.settings.Some?
    ensures Runs(w, states[i]) <==> Build(w.x, ValueOf(states[i].db.settings.value)).Ok?
    ensures SharedIsGood(w, states[i].shared) ==> Runs(w, states[i])
  {
    InvHolds(w, states, steps, i);
    MissedExactly(w, states, steps, i);
    HalvesAreJudgedApart(w, states[i].shared, states[i].dhcp);
    if SharedIsGood(w, states[i].shared) { StoredBuilds(w.x, ValueOf(states[i].db.settings.value)); }
  }
}
