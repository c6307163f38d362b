/** A primary and one replica. Primary writes land between any two queries of a pull,
    and a pull can end or the replica crash at any point. */
module Replication {
  import opened Wrappers
  import opened Tables
  import opened StoreFacts
  import opened SnapshotReads
  import StoreSound
  import SnapshotFacts
  import opened Seeding
  import Pulling

  // ----- a snapshot as it is being read -----

  datatype Progress = Progress(
    version: nat,
    views: Option<seq<View>>,
    ids: Option<seq<nat>>,                 // the services there were, to be read one by one
    row: Option<(string, ServiceRow)>,     // name and row of the service being read
    addresses: Option<seq<Address>>,
    services: seq<Service>,
    records: Option<seq<Record>>,
    settings: Option<Settings<Strings>>,
    blacklist: Option<BlacklistSettings>,
    lists: Option<seq<ListDef>>)

  datatype Phase =
    | Resting
    | Wanting                                     // the primary's version differs from the one held
    | Reading(progress: Progress)
    | Delivered(version: nat, input: Input)
    | Applied(version: nat)                       // written, the version not yet recorded

  // ids numbers the primary's services. A service keeps its number when it is renamed.
  // seeded names the lists the replica has put in at its starts since a snapshot last
  // landed on it.
  datatype System = System(
    primary: Db,
    ids: map<nat, string>,
    replica: Db,
    seeded: set<string>,
    puller: Pulling.State,
    phase: Phase)

  predicate Numbers(ids: map<nat, string>, names: set<string>) {
    && (forall i :: i in ids ==> ids[i] in names)
    && (forall n :: n in names ==> exists i :: i in ids && ids[i] == n)
    && (forall i, j :: i in ids && j in ids && ids[i] == ids[j] ==> i == j)
  }

  // manifest is what the replica ships; the primary may ship, and hold, any other lists.
  datatype World = World(c: Pulling.PullConfig, manifest: seq<ListDef>)

  datatype Step =
    | PrimaryWrites(write: Write, ids: map<nat, string>)
    | ReplicaWrites(write: Write)
    | Tick(dials: bool, answers: bool, health: Option<map<string, string>>, now: int)
    | ReadVersion
    | ReadViews(views: seq<View>)
    | ReadIDs(list: seq<nat>)
    | ReadRow
    | ReadAddresses
    | ReadAliases(aliases: seq<string>)
    | ReadRecords(records: seq<Record>)
    | ReadSettingsRow
    | ReadBlacklist
    | ReadLists(lists: seq<ListDef>)
    | ReadRules(rules: seq<Rule>)
    | Breaks(why: Pulling.Trouble)                // no snapshot after all
    | Lands(commits: bool, rebuilt: bool)
    | Records(commits: bool, now: int)
    | Restarts(seeds: nat, readable: bool)

  // The service a pull reads next.
  predicate Midway(p: Progress) { p.ids.Some? && |p.services| < |p.ids.value| }

  function Next(p: Progress): nat
    requires Midway(p)
  {
    p.ids.value[|p.services|]
  }

  predicate ServicesDone(p: Progress) { p.ids.Some? && |p.services| == |p.ids.value| }

  // A row that is gone ends the pull; addresses and aliases of one that has gone since
  // its row was read come back empty.
  predicate EnabledRead(cfg: Config, ids: map<nat, string>, p: Progress, e: Step) {
    match e
    case ReadViews(vs) => p.views.None? && ReadsViews(vs, cfg)
    case ReadIDs(list) => p.views.Some? && p.ids.None? && Distinct(list) && (set i | i in list) == ids.Keys
    case ReadRow => Midway(p) && p.row.None? && Next(p) in ids && ids[Next(p)] in cfg.services
    case ReadAddresses => Midway(p) && p.row.Some? && p.addresses.None?
    case ReadAliases(as_) =>
      && Midway(p) && p.row.Some? && p.addresses.Some?
      && if Next(p) in ids then Distinct(as_) && HoldsOf(as_, cfg.aliases, ids[Next(p)]) else as_ == []
    case ReadRecords(rs) => ServicesDone(p) && p.records.None? && ReadsRecords(rs, cfg)
    case ReadSettingsRow => p.records.Some? && p.settings.None? && cfg.settings.Some?
    case ReadBlacklist => p.settings.Some? && p.blacklist.None?
    case ReadLists(ls) => p.blacklist.Some? && p.lists.None? && ReadsLists(ls, cfg)
    case _ => false
  }

  function AfterRead(db: Db, ids: map<nat, string>, p: Progress, e: Step): Progress
    requires EnabledRead(ConfigOf(db), ids, p, e)
  {
    match e
    case ReadViews(vs) => p.(views := Some(vs))
    case ReadIDs(list) => p.(ids := Some(list))
    case ReadRow => p.(row := Some((ids[Next(p)], db.services[ids[Next(p)]])))
    case ReadAddresses => p.(addresses := Some(if Next(p) in ids then AddressesOf(db.addresses, ids[Next(p)]) else []))
    case ReadAliases(as_) =>
      p.(services := p.services + [Service(p.row.value.0, p.row.value.1, p.addresses.value, as_)], row := None,
         addresses := None)
    case ReadRecords(rs) => p.(records := Some(rs))
    case ReadSettingsRow => p.(settings := Some(ValueOf(db.settings.value)))
    case ReadBlacklist => p.(blacklist := Some(db.blacklist))
    case ReadLists(ls) => p.(lists := Some(ls))
  }

  function Assembled(p: Progress, rules: seq<Rule>): Input
    requires p.views.Some? && p.records.Some? && p.settings.Some? && p.blacklist.Some? && p.lists.Some?
  {
    Input(p.views.value, p.services, p.records.value, p.settings.value, p.blacklist.value, p.lists.value, rules)
  }

  predicate Complete(p: Progress) {
    p.views.Some? && ServicesDone(p) && p.records.Some? && p.settings.Some? && p.blacklist.Some? && p.lists.Some?
  }

  // What a replica writes on its own account: DHCP settings and list refreshes.
  predicate ReplicaMay(w: Write) {
    w.PutDHCPSettings? || w.SetBlacklistSnapshot? || w.SetBlacklistError? || w.TouchBlacklistAttempt?
  }

  ghost predicate Enabled(x: World, s: System, e: Step) {
    match e
    case PrimaryWrites(w, ids) =>
      var d := After(s.primary, w);
      Numbers(ids, d.services.Keys) && (d.version == s.primary.version ==> ids == s.ids)
    case ReplicaWrites(w) => ReplicaMay(w)
    case Tick(_, _, _, _) => s.phase == Resting
    case ReadVersion => s.phase == Wanting
    case ReadRules(rs) => s.phase.Reading? && Complete(s.phase.progress) && ReadsRules(rs, ConfigOf(s.primary))
    case Breaks(_) => s.phase.Wanting? || s.phase.Reading? || s.phase.Delivered?
    case Lands(_, _) => s.phase.Delivered?
    case Records(_, _) => s.phase.Applied?
    case Restarts(n, _) => n <= |x.manifest|
    case _ => s.phase.Reading? && EnabledRead(ConfigOf(s.primary), s.ids, s.phase.progress, e)
  }

  function Reply(x: World, s: System, version: nat, input: Input): Option<Pulling.SnapshotReply> {
    Some(Pulling.SnapshotReply(Pulling.SCHEMA_VERSION, version, x.c.pinned, Some(input)))
  }

  ghost function Then(x: World, s: System, e: Step): System
    requires Enabled(x, s, e)
  {
    match e
    case PrimaryWrites(w, ids) => s.(primary := After(s.primary, w), ids := ids)
    case ReplicaWrites(w) => s.(replica := After(s.replica, w))
    case Tick(dials, answers, health, now) =>
      var reply := if answers then Some(Pulling.VersionReply(Pulling.SCHEMA_VERSION, s.primary.version, x.c.pinned))
        else None;
      var (p, pull) := Pulling.Ticked(x.c, s.puller, dials, reply, health, now);
      s.(puller := p, phase := if pull then Wanting else Resting)
    case ReadVersion =>
      s.(phase := Reading(Progress(s.primary.version, None, None, None, None, [], None, None, None, None)))
    case ReadRules(rs) => s.(phase := Delivered(s.phase.progress.version, Assembled(s.phase.progress, rs)))
    case Breaks(why) => s.(puller := Pulling.Failed(s.puller, why), phase := Resting)
    case Lands(commits, rebuilt) =>
      var (p, d, ok) :=
        Pulling.Landed(x.c, s.puller, s.replica, Reply(x, s, s.phase.version, s.phase.input), commits, rebuilt);
      var landed := commits && Perform(s.replica, ApplySnapshot(s.phase.input)).Ok?;
      s.(puller := p, replica := d, seeded := if landed then {} else s.seeded,
         phase := if ok then Applied(s.phase.version) else Resting)
    case Records(commits, now) =>
      var (p, d) := Pulling.Recorded(x.c, s.puller, s.replica, s.phase.version, commits, now);
      s.(puller := p, replica := d, phase := Resting)
    case Restarts(n, readable) =>
      var d := Seeded(s.replica, x.manifest, n);
      s.(replica := d, seeded := s.seeded + Missing(s.replica, x.manifest, n),
         puller := Pulling.Start(x.c, d.node, readable), phase := Resting)
    case _ => s.(phase := Reading(AfterRead(s.primary, s.ids, s.phase.progress, e)))
  }

  // A primary that serves, as it always does: its rows hang together, it has settings and
  // a version, and one number for each service.
  ghost predicate PrimaryInv(s: System) {
    && StoreSound.Sound(s.primary) && s.primary.version >= 1 && s.primary.settings.Some?
    && Numbers(s.ids, s.primary.services.Keys)
  }

  // A primary that serves, and a replica that has just joined it.
  ghost predicate Starts(x: World, s: System) {
    && PrimaryInv(s)
    && Named(s.replica) && s.replica.node.primary == x.c.pinned && s.replica.node.held == 0
    && s.puller == Pulling.Start(x.c, s.replica.node, true) && s.phase == Resting
  }

  ghost predicate StepsTo(x: World, s: System, e: Step, t: System) { Enabled(x, s, e) && t == Then(x, s, e) }

  ghost predicate StepAt(x: World, states: seq<System>, steps: seq<Step>, i: nat)
    requires |states| == |steps| + 1 && i < |steps|
  {
    StepsTo(x, states[i], steps[i], states[i + 1])
  }

  ghost predicate Behaviour(x: World, states: seq<System>, steps: seq<Step>) {
    && |states| == |steps| + 1 && Starts(x, states[0])
    && forall i :: 0 <= i < |steps| ==> StepAt(x, states, steps, i)
  }

  // ----- what every step keeps -----

  // What has been read is what this configuration says.
  ghost predicate ReadSoFar(p: Progress, cfg: Config, ids: map<nat, string>) {
    && (p.views.Some? ==> ReadsViews(p.views.value, cfg))
    && (p.ids.Some? ==> Distinct(p.ids.value) && (set i | i in p.ids.value) == ids.Keys)
    && ServicesSoFar(p, cfg, ids)
    && (p.records.Some? ==> ReadsRecords(p.records.value, cfg))
    && (p.settings.Some? ==> ReadsSettings(p.settings.value, cfg))
    && (p.blacklist.Some? ==> p.blacklist.value == cfg.blacklist)
    && (p.lists.Some? ==> ReadsLists(p.lists.value, cfg))
  }

  ghost predicate ServicesSoFar(p: Progress, cfg: Config, ids: map<nat, string>) {
    && (p.ids.None? ==> p.services == [])
    && (p.ids.Some? ==> |p.services| <= |p.ids.value|)
    && (forall i :: 0 <= i < |p.services| && p.ids.Some? ==> ServiceIs(p.services[i], p.ids.value[i], cfg, ids))
    && (p.row.Some? ==> Midway(p) && RowIs(p.row.value, Next(p), cfg, ids))
    && (p.addresses.Some? ==>
        p.row.Some? && p.row.value.0 in cfg.addresses && cfg.addresses[p.row.value.0] == p.addresses.value)
  }

  predicate ServiceIs(svc: Service, id: nat, cfg: Config, ids: map<nat, string>) {
    id in ids && svc.name == ids[id] && ReadsService(svc, cfg)
  }

  predicate RowIs(row: (string, ServiceRow), id: nat, cfg: Config, ids: map<nat, string>) {
    id in ids && row.0 == ids[id] && row.0 in cfg.services && row.1 == cfg.services[row.0]
  }

  // A pull under way carries a version later than the one held, no earlier than the one
  // recorded, not later than the primary's, and, while it is the primary's, the truth.
  ghost predicate Honest(s: System, v: nat, truth: bool) {
    && s.puller.held < v && s.replica.node.held <= v <= s.primary.version
    && (v == s.primary.version ==> truth)
  }

  ghost predicate PhaseInv(s: System) {
    match s.phase
    case Resting => true
    case Wanting => s.puller.held < s.primary.version
    case Reading(p) => Honest(s, p.version, ReadSoFar(p, ConfigOf(s.primary), s.ids))
    case Delivered(v, input) => Honest(s, v, Reads(input, ConfigOf(s.primary)))
    case Applied(v) => Honest(s, v, ConfigOf(s.replica) == ConfigOf(s.primary)) && s.seeded == {}
  }

  ghost predicate HeldInv(x: World, s: System) {
    && s.replica.node.primary == x.c.pinned
    && (s.puller.held == s.replica.node.held || s.puller.held == 0)
    && s.replica.node.held <= s.primary.version
    && (s.replica.node.held == s.primary.version ==> Beside(ConfigOf(s.replica), ConfigOf(s.primary), s.seeded))
  }

  ghost predicate Inv(x: World, s: System) {
    PrimaryInv(s) && Named(s.replica) && HeldInv(x, s) && PhaseInv(s)
  }

  // No write takes the settings row away.
  lemma SettingsStay(db: Db, w: Write)
    requires db.settings.Some?
    ensures After(db, w).settings.Some?
  {
    if Perform(db, w).Ok? {
      if w.PutService? {
        ServicePutKeepsSettings(db, w.handle, w.service);
      } else if w.ReplaceAll? {
        SnapshotFacts.RegistryGives(db, w.views, w.services, w.records);
      } else if w.ReplaceBlacklist? {
        PolicyFrame(db, w.kept, w.blacklist, w.lists, w.rules);
      } else if w.ApplySnapshot? {
        SnapshotFacts.SnapshotLands(db, w.input);
      }
    }
  }

  lemma ServicePutKeepsSettings(db: Db, handle: Option<string>, svc: Service)
    ensures ServicePut(db, handle, svc).Ok? ==> ServicePut(db, handle, svc).value.settings == db.settings
  {
  }

  lemma PrimaryWriteKeeps(x: World, s: System, e: Step)
    requires Inv(x, s) && e.PrimaryWrites? && Enabled(x, s, e)
    ensures Inv(x, Then(x, s, e))
  {
    EveryWriteBumps(s.primary, e.write);
    StoreSound.EveryWriteKeepsSound(s.primary, e.write);
    SettingsStay(s.primary, e.write);
  }

  lemma ReplicaWriteKeeps(x: World, s: System, e: Step)
    requires Inv(x, s) && e.ReplicaWrites? && Enabled(x, s, e)
    ensures Inv(x, Then(x, s, e))
  {
    NodeWritesAreQuiet(s.replica, e.write);
    EveryWriteKeepsNames(s.replica, e.write);
    OwnWriteKeepsNode(s.replica, e.write);
  }

  lemma TickKeeps(x: World, s: System, e: Step)
    requires Inv(x, s) && e.Tick? && Enabled(x, s, e)
    ensures Inv(x, Then(x, s, e))
  {
  }

  lemma ReadKeepsServices(db: Db, ids: map<nat, string>, p: Progress, e: Step)
    requires EnabledRead(ConfigOf(db), ids, p, e) && ServicesSoFar(p, ConfigOf(db), ids)
    ensures ServicesSoFar(AfterRead(db, ids, p, e), ConfigOf(db), ids)
  {
    var q := AfterRead(db, ids, p, e);
    if e.ReadAliases? {
      forall i | 0 <= i < |q.services| ensures ServiceIs(q.services[i], q.ids.value[i], ConfigOf(db), ids) {
        if i < |p.services| { assert ServiceIs(p.services[i], p.ids.value[i], ConfigOf(db), ids); }
      }
    }
  }

  lemma ReadKeepsSoFar(db: Db, ids: map<nat, string>, p: Progress, e: Step)
    requires EnabledRead(ConfigOf(db), ids, p, e) && ReadSoFar(p, ConfigOf(db), ids)
    ensures ReadSoFar(AfterRead(db, ids, p, e), ConfigOf(db), ids) && AfterRead(db, ids, p, e).version == p.version
  {
    if e.ReadRow? || e.ReadAddresses? || e.ReadAliases? {
      ReadKeepsServices(db, ids, p, e);
    } else {
      TableReadKeeps(db, ids, p, e);
    }
  }

  lemma TableReadKeeps(db: Db, ids: map<nat, string>, p: Progress, e: Step)
    requires EnabledRead(ConfigOf(db), ids, p, e) && ReadSoFar(p, ConfigOf(db), ids)
    requires !e.ReadRow? && !e.ReadAddresses? && !e.ReadAliases?
    ensures ReadSoFar(AfterRead(db, ids, p, e), ConfigOf(db), ids) && AfterRead(db, ids, p, e).version == p.version
  {
    if e.ReadSettingsRow? { StoredTextSurvives(db.settings.value); }
  }

  lemma ReadKeeps(x: World, s: System, e: Step)
    requires Inv(x, s) && s.phase.Reading? && EnabledRead(ConfigOf(s.primary), s.ids, s.phase.progress, e)
    ensures Inv(x, Then(x, s, e))
  {
    if s.phase.progress.version == s.primary.version { ReadKeepsSoFar(s.primary, s.ids, s.phase.progress, e); }
  }

  // All of it read: the numbers are the services', so nothing is missing.
  lemma AssembledReads(p: Progress, rules: seq<Rule>, cfg: Config, ids: map<nat, string>)
    requires Complete(p) && ReadSoFar(p, cfg, ids) && ReadsRules(rules, cfg) && Numbers(ids, cfg.services.Keys)
    ensures Reads(Assembled(p, rules), cfg)
  {
    var svcs, list := p.services, p.ids.value;
    forall i, j | 0 <= i < j < |svcs| ensures svcs[i].name != svcs[j].name {
      assert ServiceIs(svcs[i], list[i], cfg, ids) && ServiceIs(svcs[j], list[j], cfg, ids);
      assert list[i] != list[j];
    }
    forall v | v in svcs ensures ReadsService(v, cfg) {
      var i :| 0 <= i < |svcs| && svcs[i] == v;
      assert ServiceIs(svcs[i], list[i], cfg, ids);
    }
    forall n ensures n in ServiceNames(svcs) <==> n in cfg.services {
      if n in cfg.services {
        var id :| id in ids && ids[id] == n;
        assert id in set i | i in list;
        var i :| 0 <= i < |list| && list[i] == id;
        assert ServiceIs(svcs[i], list[i], cfg, ids);
        assert svcs[i] in svcs;
      }
    }
    assert ServiceNames(svcs) == cfg.services.Keys;
  }

  lemma DeliverKeeps(x: World, s: System, e: Step)
    requires Inv(x, s) && e.ReadRules? && Enabled(x, s, e)
    ensures Inv(x, Then(x, s, e))
  {
    if s.phase.progress.version == s.primary.version {
      AssembledReads(s.phase.progress, e.rules, ConfigOf(s.primary), s.ids);
    }
  }

  lemma PerformApply(db: Db, input: Input)
    ensures Perform(db, ApplySnapshot(input)) == SnapshotApplied(db, input)
  {
  }

  lemma AfterApply(db: Db, input: Input)
    ensures Perform(db, ApplySnapshot(input)) == SnapshotApplied(db, input)
    ensures SnapshotApplied(db, input).Ok? ==> After(db, ApplySnapshot(input)) == SnapshotApplied(db, input).value
  {
    PerformApply(db, input);
  }

  lemma ReadIsShared(cfg: Config, replica: Db, input: Input)
    requires SnapshotReads.Sound(cfg) && cfg.addresses.Keys == cfg.services.Keys && Reads(input, cfg)
    ensures Perform(replica, ApplySnapshot(input)).Ok? && ConfigOf(After(replica, ApplySnapshot(input))) == cfg
  {
    AfterApply(replica, input);
    WhatWasReadIsShared(replica, input, cfg);
  }

  lemma AppliedIsShared(primary: Db, replica: Db, input: Input)
    requires StoreSound.Sound(primary) && Reads(input, ConfigOf(primary))
    ensures Perform(replica, ApplySnapshot(input)).Ok?
      && ConfigOf(After(replica, ApplySnapshot(input))) == ConfigOf(primary)
  {
    StoreSound.SoundConfig(primary);
    ReadIsShared(ConfigOf(primary), replica, input);
  }

  lemma ApplyKeepsNode(db: Db, input: Input)
    ensures After(db, ApplySnapshot(input)).node == db.node
  {
    AfterApply(db, input);
    if SnapshotApplied(db, input).Ok? { SnapshotFacts.ApplyKeepsLocalColumns(db, input); }
  }

  // A snapshot landing moves the replica while the version held is already behind.
  lemma LandedKeeps(x: World, s: System, p: Pulling.State, d: Db, ok: bool)
    requires Inv(x, s) && s.phase.Delivered? && p.held == s.puller.held && d.node == s.replica.node && Named(d)
    requires s.phase.version == s.primary.version ==> ConfigOf(d) == ConfigOf(s.primary)
    ensures Inv(x, s.(puller := p, replica := d, seeded := {},
                      phase := if ok then Applied(s.phase.version) else Resting))
  {
    if s.phase.version == s.primary.version { BesideNothing(ConfigOf(d)); }
  }

  lemma LandKeeps(x: World, s: System, e: Step)
    requires Inv(x, s) && e.Lands? && Enabled(x, s, e)
    ensures Inv(x, Then(x, s, e))
  {
    var input := s.phase.input;
    var (p, d, ok) :=
      Pulling.Landed(x.c, s.puller, s.replica, Reply(x, s, s.phase.version, input), e.commits, e.rebuilt);
    LandedIs(x, s.puller, s.replica, Reply(x, s, s.phase.version, input), e.commits, e.rebuilt);
    if e.commits && Perform(s.replica, ApplySnapshot(input)).Ok? {
      if s.phase.version == s.primary.version { AppliedIsShared(s.primary, s.replica, input); }
      LandedKeeps(x, s, p, d, ok);
    } else {
      NotLandedKeeps(x, s, p);
    }
  }

  lemma NotLandedKeeps(x: World, s: System, p: Pulling.State)
    requires Inv(x, s) && p.held == s.puller.held
    ensures Inv(x, s.(puller := p, phase := Resting))
  {
  }

  // A document from the pinned primary, landed or not.
  lemma LandedIs(x: World, p: Pulling.State, db: Db, reply: Option<Pulling.SnapshotReply>, commits: bool, rebuilt: bool)
    requires Named(db) && Pulling.Unfit(x.c, reply).None?
    ensures var (q, d, ok) := Pulling.Landed(x.c, p, db, reply, commits, rebuilt);
      && q.held == p.held && d.node == db.node && Named(d)
      && if commits && Perform(db, ApplySnapshot(reply.value.input.value)).Ok?
         then ok == rebuilt && d == After(db, ApplySnapshot(reply.value.input.value))
         else !ok && d == db
  {
    ApplyKeepsNode(db, reply.value.input.value);
    EveryWriteKeepsNames(db, ApplySnapshot(reply.value.input.value));
  }

  lemma RecordKeeps(x: World, s: System, e: Step)
    requires Inv(x, s) && e.Records? && Enabled(x, s, e)
    ensures Inv(x, Then(x, s, e))
  {
    if e.commits {
      assert After(s.replica, SetReplicaState(x.c.pinned, s.phase.version)) ==
        s.replica.(node := s.replica.node.(primary := x.c.pinned, held := s.phase.version));
      BesideNothing(ConfigOf(s.replica));
    }
  }

  lemma RestartKeeps(x: World, s: System, e: Step)
    requires Inv(x, s) && e.Restarts? && Enabled(x, s, e)
    ensures Inv(x, Then(x, s, e))
  {
    SeededNamed(s.replica, x.manifest, e.seeds);
    if s.replica.node.held == s.primary.version {
      var d, more := Seeded(s.replica, x.manifest, e.seeds), Missing(s.replica, x.manifest, e.seeds);
      SeedingAddsExactly(s.replica, x.manifest, e.seeds);
      BesideMore(ConfigOf(d), ConfigOf(s.replica), ConfigOf(s.primary), s.seeded, more);
    }
  }

  lemma BeginKeeps(x: World, s: System, e: Step)
    requires Inv(x, s) && e.ReadVersion? && Enabled(x, s, e)
    ensures Inv(x, Then(x, s, e))
  {
  }

  lemma BreakKeeps(x: World, s: System, e: Step)
    requires Inv(x, s) && e.Breaks? && Enabled(x, s, e)
    ensures Inv(x, Then(x, s, e))
  {
  }

  predicate Fetches(e: Step) {
    !e.PrimaryWrites? && !e.ReplicaWrites? && !e.Tick? && !e.Lands? && !e.Records? && !e.Restarts?
  }

  lemma FetchKeeps(x: World, s: System, e: Step)
    requires Inv(x, s) && Enabled(x, s, e) && Fetches(e)
    ensures Inv(x, Then(x, s, e))
  {
    if e.ReadVersion? {
      BeginKeeps(x, s, e);
    } else if e.ReadRules? {
      DeliverKeeps(x, s, e);
    } else if e.Breaks? {
      BreakKeeps(x, s, e);
    } else {
      ReadKeeps(x, s, e);
    }
  }

  lemma OwnStepKeeps(x: World, s: System, e: Step)
    requires Inv(x, s) && Enabled(x, s, e) && (e.Tick? || e.Lands? || e.Records? || e.Restarts?)
    ensures Inv(x, Then(x, s, e))
  {
    if e.Tick? {
      TickKeeps(x, s, e);
    } else if e.Lands? {
      LandKeeps(x, s, e);
    } else if e.Records? {
      RecordKeeps(x, s, e);
    } else {
      RestartKeeps(x, s, e);
    }
  }

  lemma StepKeeps(x: World, s: System, e: Step)
    requires Inv(x, s) && Enabled(x, s, e)
    ensures Inv(x, Then(x, s, e))
  {
    if Fetches(e) {
      FetchKeeps(x, s, e);
    } else if e.PrimaryWrites? {
      PrimaryWriteKeeps(x, s, e);
    } else if e.ReplicaWrites? {
      ReplicaWriteKeeps(x, s, e);
    } else {
      OwnStepKeeps(x, s, e);
    }
  }

  lemma StartKeeps(x: World, s: System)
    requires Starts(x, s)
    ensures Inv(x, s)
  {
  }

  lemma MoveKeeps(x: World, s: System, e: Step, t: System)
    requires Inv(x, s) && StepsTo(x, s, e, t)
    ensures Inv(x, t)
  {
    StepKeeps(x, s, e);
  }

  lemma {:induction false} InvHolds(x: World, states: seq<System>, steps: seq<Step>, i: nat)
    requires Behaviour(x, states, steps) && i < |states|
    ensures Inv(x, states[i])
  {
    if i == 0 {
      StartKeeps(x, states[0]);
    } else {
      assert StepAt(x, states, steps, i - 1);
      InvHolds(x, states, steps, i - 1);
      MoveKeeps(x, states[i - 1], steps[i - 1], states[i]);
    }
  }

  // ----- what a poll may conclude -----

  // What the replica put in at its starts, the primary has as well.
  predicate SeedsAreShared(s: System) { s.seeded <= s.primary.lists.Keys }

  lemma AtTheVersionHeld(x: World, s: System)
    requires Inv(x, s) && s.primary.version == s.puller.held
    ensures Beside(ConfigOf(s.replica), ConfigOf(s.primary), s.seeded)
    ensures ConfigOf(s.replica) == ConfigOf(s.primary) <==> SeedsAreShared(s)
  {
    BesideExactly(ConfigOf(s.replica), ConfigOf(s.primary), s.seeded);
    assert ConfigOf(s.primary).lists.Keys == s.primary.lists.Keys;
  }

  // Whenever the primary is at the version held, what the replica shares is what the
  // primary does, with nothing but the lists the replica has put in at its starts since a
  // snapshot last landed beside it: it is exactly the primary's configuration if and only
  // if the primary has each of those lists too.
  lemma SameVersionSameConfig(x: World, states: seq<System>, steps: seq<Step>, i: nat)
    requires Behaviour(x, states, steps) && i < |states|
    requires states[i].primary.version == states[i].puller.held
    ensures Beside(ConfigOf(states[i].replica), ConfigOf(states[i].primary), states[i].seeded)
    ensures ConfigOf(states[i].replica) == ConfigOf(states[i].primary) <==> SeedsAreShared(states[i])
  {
    InvHolds(x, states, steps, i);
    AtTheVersionHeld(x, states[i]);
  }

  // A step of a poll that meets neither a write nor a failure.
  predicate Smooth(e: Step) {
    match e
    case PrimaryWrites(_, _) => false
    case ReplicaWrites(_) => false
    case Breaks(_) => false
    case Restarts(_, _) => false
    case Tick(dials, answers, _, _) => dials && answers
    case Lands(commits, rebuilt) => commits && rebuilt
    case Records(commits, _) => commits
    case _ => true
  }

  ghost predicate Converged(s: System) {
    s.puller.held == s.primary.version && ConfigOf(s.replica) == ConfigOf(s.primary)
  }

  // Nothing has happened on the primary since the pull under way began.
  ghost predicate UpToDate(s: System) {
    match s.phase
    case Resting => Converged(s)
    case Wanting => true
    case Reading(p) => p.version == s.primary.version
    case Delivered(v, _) => v == s.primary.version
    case Applied(v) => v == s.primary.version
  }

  // What a tick meets decides what its poll can do: with another version it pulls, and
  // with the one held it looks no further.
  predicate WillMeet(s: System) { s.puller.held == s.primary.version ==> SeedsAreShared(s) }

  lemma SmoothTick(x: World, s: System, e: Step)
    requires Inv(x, s) && Enabled(x, s, e) && Smooth(e) && e.Tick?
    ensures WillMeet(s) ==> UpToDate(Then(x, s, e))
    ensures !WillMeet(s) ==> Apart(Then(x, s, e))
  {
    if s.puller.held == s.primary.version {
      AtTheVersionHeld(x, s);
      TickAtVersion(x, s, e);
    }
  }

  lemma TickAtVersion(x: World, s: System, e: Step)
    requires Inv(x, s) && Enabled(x, s, e) && Smooth(e) && e.Tick? && s.puller.held == s.primary.version
    ensures var t := Then(x, s, e);
      t == s.(puller := t.puller) && t.puller.held == s.puller.held
  {
  }

  // At the version held, and not sharing one configuration: no tick will see it.
  ghost predicate Apart(s: System) {
    && s.phase == Resting && s.puller.held == s.replica.node.held == s.primary.version && !SeedsAreShared(s)
    && ConfigOf(s.replica) != ConfigOf(s.primary)
  }

  lemma SmoothRead(x: World, s: System, e: Step)
    requires Inv(x, s) && Enabled(x, s, e) && Smooth(e) && UpToDate(s) && !e.Tick? && !e.Lands? && !e.Records?
    ensures UpToDate(Then(x, s, e))
  {
  }

  lemma SmoothLand(x: World, s: System, e: Step)
    requires Inv(x, s) && Enabled(x, s, e) && Smooth(e) && UpToDate(s) && e.Lands?
    ensures UpToDate(Then(x, s, e))
  {
    AppliedIsShared(s.primary, s.replica, s.phase.input);
  }

  lemma SmoothRecord(x: World, s: System, e: Step)
    requires Inv(x, s) && Enabled(x, s, e) && Smooth(e) && UpToDate(s) && e.Records?
    ensures UpToDate(Then(x, s, e))
  {
    assert After(s.replica, SetReplicaState(x.c.pinned, s.phase.version)) ==
      s.replica.(node := s.replica.node.(primary := x.c.pinned, held := s.phase.version));
  }

  lemma SmoothStep(x: World, s: System, e: Step)
    requires Inv(x, s) && Enabled(x, s, e) && Smooth(e) && (UpToDate(s) || (e.Tick? && WillMeet(s)))
    ensures UpToDate(Then(x, s, e))
  {
    if e.Tick? {
      if s.puller.held == s.primary.version { AtTheVersionHeld(x, s); }
      SmoothTick(x, s, e);
    } else if e.Lands? {
      SmoothLand(x, s, e);
    } else if e.Records? {
      SmoothRecord(x, s, e);
    } else {
      SmoothRead(x, s, e);
    }
  }

  lemma {:induction false} SmoothPollMeets(x: World, states: seq<System>, steps: seq<Step>, from: nat, to: nat)
    requires Behaviour(x, states, steps) && from < to < |states| && WillMeet(states[from])
    requires steps[from].Tick? && forall i :: from <= i < to ==> Smooth(steps[i])
    ensures UpToDate(states[to])
  {
    if from + 1 < to { SmoothPollMeets(x, states, steps, from, to - 1); }
    assert StepAt(x, states, steps, to - 1);
    InvHolds(x, states, steps, to - 1);
    SmoothTo(x, states[to - 1], steps[to - 1], states[to]);
  }

  lemma SmoothTo(x: World, s: System, e: Step, t: System)
    requires Inv(x, s) && StepsTo(x, s, e, t) && Smooth(e) && (UpToDate(s) || (e.Tick? && WillMeet(s)))
    ensures UpToDate(t)
  {
    SmoothStep(x, s, e);
  }

  // Apart, the nodes stay apart whatever comes, but for a write on the primary or a start
  // that cannot read which version is held.
  predicate LeavesApart(e: Step) { !e.PrimaryWrites? && !(e.Restarts? && !e.readable) }

  lemma ApartTick(x: World, s: System, e: Step)
    requires Inv(x, s) && Apart(s) && e.Tick? && Enabled(x, s, e)
    ensures Apart(Then(x, s, e))
  {
  }

  lemma ApartStart(x: World, s: System, e: Step)
    requires Inv(x, s) && Apart(s) && e.Restarts? && e.readable && Enabled(x, s, e)
    ensures Apart(Then(x, s, e))
  {
    var t := Then(x, s, e);
    SeededNamed(s.replica, x.manifest, e.seeds);
    RestartKeeps(x, s, e);
    AtTheVersionHeld(x, t);
  }

  lemma ApartWrite(x: World, s: System, e: Step)
    requires Inv(x, s) && Apart(s) && e.ReplicaWrites? && Enabled(x, s, e)
    ensures Apart(Then(x, s, e))
  {
    NodeWritesAreQuiet(s.replica, e.write);
    OwnWriteKeepsNode(s.replica, e.write);
  }

  lemma OwnWriteKeepsNode(db: Db, w: Write)
    requires ReplicaMay(w)
    ensures After(db, w).node == db.node
  {
  }

  lemma ApartTo(x: World, s: System, e: Step, t: System)
    requires Inv(x, s) && Apart(s) && StepsTo(x, s, e, t) && LeavesApart(e)
    ensures Apart(t)
  {
    if e.Restarts? {
      ApartStart(x, s, e);
    } else if e.ReplicaWrites? {
      ApartWrite(x, s, e);
    } else {
      ApartTick(x, s, e);
    }
  }

  lemma {:induction false} ApartForGood(x: World, states: seq<System>, steps: seq<Step>, from: nat, to: nat)
    requires Behaviour(x, states, steps) && from <= to < |states| && Apart(states[from])
    requires forall i :: from <= i < to ==> LeavesApart(steps[i])
    ensures Apart(states[to])
  {
    if from < to {
      ApartForGood(x, states, steps, from, to - 1);
      ApartAt(x, states, steps, to - 1);
    }
  }

  lemma ApartAt(x: World, states: seq<System>, steps: seq<Step>, n: nat)
    requires Behaviour(x, states, steps) && n < |steps| && Apart(states[n]) && LeavesApart(steps[n])
    ensures Apart(states[n + 1])
  {
    assert StepAt(x, states, steps, n);
    InvHolds(x, states, steps, n);
    ApartTo(x, states[n], steps[n], states[n + 1]);
  }

  lemma TickTo(x: World, s: System, e: Step, t: System)
    requires Inv(x, s) && StepsTo(x, s, e, t) && Smooth(e) && e.Tick? && !WillMeet(s)
    ensures Apart(t)
  {
    SmoothTick(x, s, e);
  }

  // A poll that meets no write and no failure ends with both nodes sharing one
  // configuration, and the replica holding the primary's version, exactly when its tick
  // meets another version or the primary has every list the replica has put in; else the
  // nodes stay apart at one version.
  lemma SmoothPollConverges(x: World, states: seq<System>, steps: seq<Step>, from: nat, to: nat)
    requires Behaviour(x, states, steps) && from < to < |states|
    requires steps[from].Tick? && forall i :: from <= i < to ==> Smooth(steps[i])
    ensures WillMeet(states[from]) ==>
      UpToDate(states[to]) && (states[to].phase == Resting ==> Converged(states[to]))
    ensures !WillMeet(states[from]) ==> Apart(states[to])
  {
    if WillMeet(states[from]) {
      SmoothPollMeets(x, states, steps, from, to);
    } else {
      SmoothPollMisses(x, states, steps, from, to);
    }
  }

  lemma SmoothPollMisses(x: World, states: seq<System>, steps: seq<Step>, from: nat, to: nat)
    requires Behaviour(x, states, steps) && from < to < |states| && !WillMeet(states[from])
    requires steps[from].Tick? && forall i :: from <= i < to ==> Smooth(steps[i])
    ensures Apart(states[to])
  {
    MissedTick(x, states, steps, from);
    ApartForGood(x, states, steps, from + 1, to);
  }

  lemma MissedTick(x: World, states: seq<System>, steps: seq<Step>, from: nat)
    requires Behaviour(x, states, steps) && from < |steps| && !WillMeet(states[from])
    requires steps[from].Tick? && Smooth(steps[from])
    ensures Apart(states[from + 1])
  {
    assert StepAt(x, states, steps, from);
    InvHolds(x, states, steps, from);
    TickTo(x, states[from], steps[from], states[from + 1]);
  }

  // A primary still at version 0 would be taken for one already pulled by a replica that
  // has just joined, whatever that holds.
  lemma VersionZeroLooksPulled(c: Pulling.PullConfig, health: Option<map<string, string>>, now: int)
    ensures var replica :=
      EMPTY.(version := 1, rules := map["ads.example." := "deny"], node := Node(c.pinned, 0, None));
      var reply := Pulling.VersionReply(Pulling.SCHEMA_VERSION, EMPTY.version, c.pinned);
      && ConfigOf(replica) != ConfigOf(EMPTY)
      && !Pulling.Ticked(c, Pulling.Start(c, replica.node, true), true, Some(reply), health, now).1
  {
    assert ConfigOf(EMPTY).rules == map[];
    assert "ads.example." in map["ads.example." := "deny"];
  }
}
