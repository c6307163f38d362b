/** The stored configuration, table by table, and every write to it as a function of
    the tables before. A trigger is part of the statement that fires it. Services and
    lists are handled by their unique names; the numbers the database gives them carry
    nothing else. */
module Tables {
  import opened Wrappers
  import Texts
  import ZoneIndex
  import ZoneRename
  import RenamedAnswers

  type Record = ZoneIndex.Record
  type Address = ZoneIndex.Address

  // ----- what callers hand over -----

  datatype View = View(name: string, subnets: seq<string>)

  datatype Service = Service(name: string, row: ServiceRow, addresses: seq<Address>, aliases: seq<string>)

  // The thirteen columns replicas hear about, with the list columns as lists or as text.
  datatype Replicated<L> = Replicated(
    privateDomain: string,
    reverseZones: L,
    upstreams: L,
    allowQuery: L,
    allowTailscale: bool,
    ttl: int,
    cacheMinTTL: int,
    cacheMaxTTL: int,
    negativeMaxTTL: int,
    cacheEntries: int,
    healthInterval: int,
    healthTimeout: int,
    healthWorkers: int)

  datatype NodeLocal = NodeLocal(logQueries: bool, logClientIP: bool, dhcpLeaseFile: string, discoveryInterval: int)

  datatype DHCP = DHCP(
    enabled: bool,
    iface: string,
    rangeStart: string,
    rangeEnd: string,
    gateway: string,
    leaseSeconds: int,
    secondaryDNS: string,
    allowForeign: bool)

  datatype Settings<L> = Settings(shared: Replicated<L>, local: NodeLocal, dhcp: DHCP)

  const NO_SETTINGS: Settings<Strings> := Settings(
    Replicated("", Nil, Nil, Nil, false, 0, 0, 0, 0, 0, 0, 0, 0), NodeLocal(false, false, "", 0),
    DHCP(false, "", "", "", "", 0, "", false))

  datatype BlacklistSettings = BlacklistSettings(enabled: bool, blockTTL: int)

  datatype ListDef = ListDef(name: string, url: string, format: string, description: string, enabled: bool,
                             builtin: bool, interval: int)

  datatype Rule = Rule(kind: string, domain: string)

  datatype Input = Input(
    views: seq<View>,
    services: seq<Service>,
    records: seq<Record>,
    settings: Settings<Strings>,
    blacklist: BlacklistSettings,
    lists: seq<ListDef>,
    rules: seq<Rule>)

  // ----- the tables -----

  datatype ServiceRow = ServiceRow(checkURL: string, checkInsecure: bool, proxyAddress: string, routeViaProxy: bool,
                                   mac: string)

  datatype AddressRow = AddressRow(service: string, address: Address)

  datatype RecordRow = RecordRow(id: nat, record: Record)

  // What a refresh downloads and notes down: this node's own.
  datatype Body = Body(domains: seq<string>, etag: string, lastModified: string, entries: nat, skipped: int,
                       attemptAt: int, okAt: int, error: string)

  const NO_BODY := Body([], "", "", 0, 0, 0, 0, "")

  datatype ListRow = ListRow(def: ListDef, body: Body)

  // Bookkeeping that never leaves the node: who it follows, at which version, and
  // when it was promoted.
  datatype Node = Node(primary: string, held: nat, promotedAt: Option<int>)

  datatype Db = Db(
    version: nat,
    views: set<string>,
    subnets: map<string, string>,           // cidr to the view that claims it
    services: map<string, ServiceRow>,
    addresses: seq<AddressRow>,
    aliases: map<string, string>,           // alias to its service
    records: seq<RecordRow>,
    settings: Option<Settings<string>>,
    blacklist: BlacklistSettings,
    lists: map<string, ListRow>,
    rules: map<string, string>,             // domain to kind
    node: Node)

  const EMPTY :=
    Db(0, {}, map[], map[], [], map[], [], None, BlacklistSettings(true, 60), map[], map[], Node("", 0, None))

  // ----- what replicas are to share -----

  datatype Config = Config(
    views: set<string>,
    subnets: map<string, string>,
    services: map<string, ServiceRow>,
    addresses: map<string, seq<Address>>,
    aliases: map<string, string>,
    records: multiset<Record>,
    settings: Option<Replicated<string>>,
    blacklist: BlacklistSettings,
    lists: map<string, ListDef>,
    rules: map<string, string>)

  function AddressesOf(rows: seq<AddressRow>, service: string): seq<Address> {
    if rows == [] then []
    else
      var r := rows[|rows| - 1];
      AddressesOf(rows[..|rows| - 1], service) + (if r.service == service then [r.address] else [])
  }

  function RecordsOf(rows: seq<RecordRow>): (rs: seq<Record>)
    ensures |rs| == |rows| && forall i :: 0 <= i < |rows| ==> rs[i] == rows[i].record
  {
    seq(|rows|, i requires 0 <= i < |rows| => rows[i].record)
  }

  function ListDefs(lists: map<string, ListRow>): map<string, ListDef> {
    map n | n in lists :: lists[n].def
  }

  function SharedOf(settings: Option<Settings<string>>): Option<Replicated<string>> {
    match settings case None => None case Some(row) => Some(row.shared)
  }

  function ConfigOf(db: Db): Config {
    Config(db.views, db.subnets, db.services, map n | n in db.services :: AddressesOf(db.addresses, n), db.aliases,
           multiset(RecordsOf(db.records)), SharedOf(db.settings), db.blacklist, ListDefs(db.lists), db.rules)
  }

  // The version may only go up, and must where the shared configuration changes.
  ghost predicate Bumps(a: Db, b: Db) {
    a.version <= b.version && (a.version == b.version ==> ConfigOf(a) == ConfigOf(b))
  }

  ghost predicate Quiet(a: Db, b: Db) {
    a.version == b.version && ConfigOf(a) == ConfigOf(b)
  }

  // ----- list columns as text -----

  // A list of texts as Go has it: nil and empty differ in comparisons and nowhere else.
  datatype Strings = Nil | Items(items: seq<string>) {
    function All(): seq<string> { if Nil? then [] else items }
  }

  function PackList(v: Strings): string {
    if v.All() == [] then "" else Texts.Join(v.All(), '\n')
  }

  function UnpackList(s: string): Strings {
    if s == "" then Nil else Items(Texts.Split(s, '\n'))
  }

  function Pack(v: Replicated<Strings>): Replicated<string> {
    Replicated(v.privateDomain, PackList(v.reverseZones), PackList(v.upstreams), PackList(v.allowQuery),
               v.allowTailscale, v.ttl, v.cacheMinTTL, v.cacheMaxTTL, v.negativeMaxTTL, v.cacheEntries,
               v.healthInterval, v.healthTimeout, v.healthWorkers)
  }

  function Unpack(v: Replicated<string>): Replicated<Strings> {
    Replicated(v.privateDomain, UnpackList(v.reverseZones), UnpackList(v.upstreams), UnpackList(v.allowQuery),
               v.allowTailscale, v.ttl, v.cacheMinTTL, v.cacheMaxTTL, v.negativeMaxTTL, v.cacheEntries,
               v.healthInterval, v.healthTimeout, v.healthWorkers)
  }

  function RowOf(v: Settings<Strings>): Settings<string> { Settings(Pack(v.shared), v.local, v.dhcp) }

  function ValueOf(row: Settings<string>): Settings<Strings> { Settings(Unpack(row.shared), row.local, row.dhcp) }

  // ----- single statements and small transactions -----

  datatype Error =
    | NotFound
    | DuplicateCIDR
    | DuplicateName
    | ViewInUse
    | Refused          // a constraint the caller gets no name for
    | NoSettings
    | NotCommitted

  predicate Distinct<T(==)>(s: seq<T>) { forall i, j :: 0 <= i < j < |s| ==> s[i] != s[j] }

  function AllTo(keys: seq<string>, v: string): map<string, string> { map k | k in keys :: v }

  function OwnedBy(m: map<string, string>, owner: string): set<string> { set k | k in m && m[k] == owner }

  function Bumped(db: Db, n: nat): Db { db.(version := db.version + n) }

  function ViewCleared(db: Db, name: string): Db {
    var owned := OwnedBy(db.subnets, name);
    db.(views := db.views + {name}, subnets := db.subnets - owned,
        version := db.version + (if name in db.views then 0 else 1) + |owned|)
  }

  function ViewPut(db: Db, v: View): Result<Db, Error> {
    var d := ViewCleared(db, v.name);
    if !Distinct(v.subnets) || exists c :: c in v.subnets && c in d.subnets then Err(DuplicateCIDR)
    else Ok(d.(subnets := d.subnets + AllTo(v.subnets, v.name), version := d.version + |v.subnets|))
  }

  predicate ViewReferenced(db: Db, name: string) {
    || (exists r :: r in db.addresses && r.address.view == name && name != "")
    || (exists r :: r in db.records && r.record.view == name && name != "")
  }

  // Dropping a view drops its subnets with it, row by row.
  function ViewDeleted(db: Db, name: string): Result<Db, Error> {
    var owned := OwnedBy(db.subnets, name);
    if ViewReferenced(db, name) then Err(ViewInUse)
    else if name !in db.views then Err(NotFound)
    else Ok(db.(views := db.views - {name}, subnets := db.subnets - owned, version := db.version + 1 + |owned|))
  }

  predicate ViewKnown(db: Db, view: string) { view == "" || view in db.views }

  function Without(rows: seq<AddressRow>, service: string): (r: seq<AddressRow>)
    ensures |r| <= |rows|
  {
    if rows == [] then []
    else
      var last := rows[|rows| - 1];
      Without(rows[..|rows| - 1], service) + (if last.service == service then [] else [last])
  }

  function RowsFor(service: string, addresses: seq<Address>): (r: seq<AddressRow>)
    ensures |r| == |addresses| && forall i :: 0 <= i < |r| ==> r[i] == AddressRow(service, addresses[i])
  {
    seq(|addresses|, i requires 0 <= i < |addresses| => AddressRow(service, addresses[i]))
  }

  function ServiceCleared(db: Db, name: string): Db {
    var owned := OwnedBy(db.aliases, name);
    var rest := Without(db.addresses, name);
    db.(addresses := rest, aliases := db.aliases - owned, version := db.version + (|db.addresses| - |rest|) + |owned|)
  }

  function ServiceAttached(d: Db, svc: Service): Result<Db, Error> {
    if exists a :: a in svc.addresses && !ViewKnown(d, a.view) then Err(Refused)
    else if !Distinct(svc.aliases) || exists a :: a in svc.aliases && a in d.aliases then Err(DuplicateName)
    else Ok(d.(addresses := d.addresses + RowsFor(svc.name, svc.addresses),
               aliases := d.aliases + AllTo(svc.aliases, svc.name),
               version := d.version + |svc.addresses| + |svc.aliases|))
  }

  // handle names the row to replace; None inserts one. Replacing a row that is gone
  // touches nothing, and then has no row to hang addresses and aliases on.
  function ServicePut(db: Db, handle: Option<string>, svc: Service): Result<Db, Error> {
    match handle
    case None =>
      if svc.name in db.services then Err(DuplicateName)
      else ServiceAttached(Bumped(db.(services := db.services[svc.name := svc.row]), 1), svc)
    case Some(h) =>
      if h !in db.services then
        if svc.addresses == [] && svc.aliases == [] then Ok(db) else Err(Refused)
      else if svc.name != h && svc.name in db.services then Err(Refused)
      else
        var d := ServiceCleared(db, h);
        ServiceAttached(Bumped(d.(services := (d.services - {h})[svc.name := svc.row]), 1), svc)
  }

  function ServiceDeleted(db: Db, name: string): Result<Db, Error> {
    if name !in db.services then Err(NotFound)
    else Ok(Bumped(ServiceCleared(db, name).(services := db.services - {name}), 1))
  }

  function NextID(rows: seq<RecordRow>): nat { if rows == [] then 1 else rows[|rows| - 1].id + 1 }

  function RecordPut(db: Db, r: Record): Result<Db, Error> {
    if !ViewKnown(db, r.view) then Err(Refused)
    else Ok(Bumped(db.(records := db.records + [RecordRow(NextID(db.records), r)]), 1))
  }

  function WithoutRecord(rows: seq<RecordRow>, id: nat): (r: seq<RecordRow>)
    ensures |r| <= |rows|
    ensures |r| == |rows| ==> r == rows
  {
    if rows == [] then []
    else
      var last := rows[|rows| - 1];
      WithoutRecord(rows[..|rows| - 1], id) + (if last.id == id then [] else [last])
  }

  function RecordDeleted(db: Db, id: nat): Result<Db, Error> {
    var rest := WithoutRecord(db.records, id);
    if |rest| == |db.records| then Err(NotFound)
    else Ok(db.(records := rest, version := db.version + (|db.records| - |rest|)))
  }

  function SettingsPut(db: Db, v: Settings<Strings>): Db {
    var row := RowOf(v);
    var silent := db.settings.Some? && db.settings.value.shared == row.shared;
    Bumped(db.(settings := Some(row)), if silent then 0 else 1)
  }

  function DHCPPut(db: Db, dhcp: DHCP): Result<Db, Error> {
    if db.settings.None? then Err(NoSettings) else Ok(db.(settings := Some(db.settings.value.(dhcp := dhcp))))
  }

  // Does the rename touch this row?
  predicate Moves(r: Record, from: string, to: string) {
    || ZoneRename.RenameInZone(r.name, from, to).1
    || ((r.kind == "CNAME" || r.kind == "PTR") && ZoneRename.RenameInZone(r.value, from, to).1)
  }

  function MovedRows(rows: seq<RecordRow>, from: string, to: string): (m: seq<RecordRow>)
    ensures |m| == |rows|
    ensures forall i :: 0 <= i < |rows| ==>
      m[i] == RecordRow(rows[i].id, RenamedAnswers.MoveRecord(rows[i].record, from, to))
  {
    seq(|rows|,
        i requires 0 <= i < |rows| => RecordRow(rows[i].id, RenamedAnswers.MoveRecord(rows[i].record, from, to)))
  }

  function Mover(from: string, to: string): Record -> bool { r => Moves(r, from, to) }

  // How many of the first n rows satisfy p.
  function Counted(rows: seq<RecordRow>, p: Record -> bool, n: nat): nat
    requires n <= |rows|
  {
    if n == 0 then 0 else Counted(rows, p, n - 1) + (if p(rows[n - 1].record) then 1 else 0)
  }

  function ZoneRenamed(db: Db, v: Settings<Strings>, from: string, to: string): Db {
    var a, b := ZoneRename.ZoneSuffix(from), ZoneRename.ZoneSuffix(to);
    var d := SettingsPut(db, v);
    Bumped(d.(records := MovedRows(d.records, a, b)), Counted(d.records, Mover(a, b), |d.records|))
  }

  // ----- lists and rules -----

  function BlacklistPut(db: Db, b: BlacklistSettings): Db { Bumped(db.(blacklist := b), 1) }

  function ListPut(db: Db, handle: Option<string>, l: ListDef): Result<Db, Error> {
    match handle
    case None =>
      if l.name in db.lists then Err(DuplicateName)
      else Ok(Bumped(db.(lists := db.lists[l.name := ListRow(l, NO_BODY)]), 1))
    case Some(h) =>
      if h !in db.lists then Err(NotFound)
      else if l.name != h && l.name in db.lists then Err(DuplicateName)
      else
        var row := db.lists[h];
        var def := l.(builtin := row.def.builtin);
        Ok(Bumped(db.(lists := (db.lists - {h})[l.name := ListRow(def, row.body)]), if def == row.def then 0 else 1))
  }

  function ListDeleted(db: Db, name: string): Result<Db, Error> {
    if name !in db.lists then Err(NotFound) else Ok(Bumped(db.(lists := db.lists - {name}), 1))
  }

  function WithBody(db: Db, name: string, body: Body): Db
    requires name in db.lists
  {
    db.(lists := db.lists[name := db.lists[name].(body := body)])
  }

  function BodySet(db: Db, name: string, domains: seq<string>, skipped: int, etag: string, lastModified: string,
                   at: int): Result<Db, Error> {
    if name !in db.lists then Err(NotFound)
    else Ok(WithBody(db, name, Body(domains, etag, lastModified, |domains|, skipped, at, at, "")))
  }

  function ErrorSet(db: Db, name: string, msg: string, at: int): Db {
    if name !in db.lists then db else WithBody(db, name, db.lists[name].body.(error := msg, attemptAt := at))
  }

  function Touched(db: Db, name: string, at: int): Db {
    if name !in db.lists then db else WithBody(db, name, db.lists[name].body.(attemptAt := at, okAt := at, error := ""))
  }

  function RulePut(db: Db, r: Rule): Result<Db, Error> {
    if r.domain in db.rules then Err(DuplicateName) else Ok(Bumped(db.(rules := db.rules[r.domain := r.kind]), 1))
  }

  function RuleDeleted(db: Db, domain: string): Result<Db, Error> {
    if domain !in db.rules then Err(NotFound) else Ok(Bumped(db.(rules := db.rules - {domain}), 1))
  }

  // ----- the large transactions -----

  function Wiped(db: Db): Db {
    db.(records := [], aliases := map[], addresses := [], services := map[], subnets := map[], views := {},
        version :=
          db.version + |db.records| + |db.aliases| + |db.addresses| + |db.services| + |db.subnets| + |db.views|)
  }

  function ViewsPut(db: Db, vs: seq<View>): Result<Db, Error> {
    if vs == [] then Ok(db)
    else match ViewsPut(db, vs[..|vs| - 1])
      case Err(e) => Err(e)
      case Ok(d) => ViewPut(d, vs[|vs| - 1])
  }

  function ServicesPut(db: Db, svcs: seq<Service>): Result<Db, Error> {
    if svcs == [] then Ok(db)
    else match ServicesPut(db, svcs[..|svcs| - 1])
      case Err(e) => Err(e)
      case Ok(d) => ServicePut(d, None, svcs[|svcs| - 1])
  }

  function RecordsPut(db: Db, rs: seq<Record>): Result<Db, Error> {
    if rs == [] then Ok(db)
    else match RecordsPut(db, rs[..|rs| - 1])
      case Err(e) => Err(e)
      case Ok(d) => RecordPut(d, rs[|rs| - 1])
  }

  function RegistryReplaced(db: Db, views: seq<View>, svcs: seq<Service>, rs: seq<Record>): Result<Db, Error> {
    match ViewsPut(Wiped(db), views)
    case Err(e) => Err(e)
    case Ok(d) => match ServicesPut(d, svcs)
      case Err(e) => Err(e)
      case Ok(d2) => RecordsPut(d2, rs)
  }

  // The incoming row with this node's own columns put back.
  function MergedSettings(db: Db, v: Settings<Strings>): Settings<Strings> {
    if db.settings.None? then v else v.(local := db.settings.value.local, dhcp := db.settings.value.dhcp)
  }

  // One incoming definition. before is the lists as they were when the transaction began.
  function ListApplied(db: Db, before: map<string, ListRow>, l: ListDef): Result<Db, Error> {
    if l.name in before then
      if l.name !in db.lists then Ok(db)
      else
        var row := db.lists[l.name];
        var body := if before[l.name].def.url != l.url then NO_BODY else row.body;
        Ok(Bumped(db.(lists := db.lists[l.name := ListRow(l, body)]), if l == row.def then 0 else 1))
    else if l.name in db.lists then Err(Refused)
    else Ok(Bumped(db.(lists := db.lists[l.name := ListRow(l, NO_BODY)]), 1))
  }

  function ListsApplied(db: Db, before: map<string, ListRow>, ls: seq<ListDef>): Result<Db, Error> {
    if ls == [] then Ok(db)
    else match ListsApplied(db, before, ls[..|ls| - 1])
      case Err(e) => Err(e)
      case Ok(d) => ListApplied(d, before, ls[|ls| - 1])
  }

  function NamesOf(ls: seq<ListDef>): set<string> { set l | l in ls :: l.name }

  function ListsPruned(db: Db, before: map<string, ListRow>, incoming: set<string>): Db {
    var gone := (before.Keys - incoming) * db.lists.Keys;
    db.(lists := db.lists - gone, version := db.version + |gone|)
  }

  function RulesWiped(db: Db): Db { db.(rules := map[], version := db.version + |db.rules|) }

  function RulesPut(db: Db, rs: seq<Rule>): Result<Db, Error> {
    if rs == [] then Ok(db)
    else match RulesPut(db, rs[..|rs| - 1])
      case Err(e) => Err(e)
      case Ok(d) => RulePut(d, rs[|rs| - 1])
  }

  function BlacklistReplaced(db: Db, b: BlacklistSettings, ls: seq<ListDef>, rs: seq<Rule>): Result<Db, Error> {
    match ListsApplied(BlacklistPut(db, b), db.lists, ls)
    case Err(e) => Err(e)
    case Ok(d) => RulesPut(RulesWiped(ListsPruned(d, db.lists, NamesOf(ls))), rs)
  }

  // Lists put in anew under the bodies kept for their addresses; the last error is not
  // among what is kept.
  function ListsImported(db: Db, kept: map<string, Body>, ls: seq<ListDef>): Result<Db, Error> {
    if ls == [] then Ok(db)
    else match ListsImported(db, kept, ls[..|ls| - 1])
      case Err(e) => Err(e)
      case Ok(d) =>
        var l := ls[|ls| - 1];
        if l.name in d.lists then Err(DuplicateName)
        else Ok(Bumped(d.(lists := d.lists[l.name := ListRow(l, KeptBody(kept, l.url))]), 1))
  }

  function KeptBody(kept: map<string, Body>, url: string): Body {
    if url in kept then kept[url].(error := "") else NO_BODY
  }

  function PolicyWiped(db: Db): Db {
    db.(rules := map[], lists := map[], version := db.version + |db.rules| + |db.lists|)
  }

  // A whole imported policy. The bodies were read before the transaction began.
  function PolicyImported(db: Db, kept: map<string, Body>, b: BlacklistSettings, ls: seq<ListDef>,
                          rs: seq<Rule>): Result<Db, Error> {
    match ListsImported(BlacklistPut(PolicyWiped(db), b), kept, ls)
    case Err(e) => Err(e)
    case Ok(d) => RulesPut(d, rs)
  }

  function SnapshotApplied(db: Db, input: Input): Result<Db, Error> {
    match RegistryReplaced(db, input.views, input.services, input.records)
    case Err(e) => Err(e)
    case Ok(d) =>
      BlacklistReplaced(SettingsPut(d, MergedSettings(d, input.settings)), input.blacklist, input.lists, input.rules)
  }

  // ----- every write there is -----

  datatype Write =
    | PutView(view: View)
    | DeleteView(name: string)
    | PutService(handle: Option<string>, service: Service)
    | DeleteService(name: string)
    | PutRecord(record: Record)
    | DeleteRecord(id: nat)
    | ReplaceAll(views: seq<View>, services: seq<Service>, records: seq<Record>)
    | PutSettings(settings: Settings<Strings>)
    | PutSettingsRenamingZone(settings: Settings<Strings>, from: string, to: string)
    | PutDHCPSettings(dhcp: DHCP)
    | SetBlacklistSettings(blacklist: BlacklistSettings)
    | PutBlacklistList(handle: Option<string>, def: ListDef)
    | DeleteBlacklistList(name: string)
    | SetBlacklistSnapshot(name: string, domains: seq<string>, skipped: int, etag: string, lastModified: string,
                           at: int)
    | SetBlacklistError(name: string, msg: string, at: int)
    | TouchBlacklistAttempt(name: string, at: int)
    | PutBlacklistRule(rule: Rule)
    | DeleteBlacklistRule(domain: string)
    | ReplaceBlacklist(kept: map<string, Body>, blacklist: BlacklistSettings, lists: seq<ListDef>, rules: seq<Rule>)
    | ApplySnapshot(input: Input)
    | SetReplicaState(primary: string, held: nat)
    | RecordPromotion(at: int)
    | FollowPrimary(primary: string, held: nat)

  function Perform(db: Db, w: Write): Result<Db, Error> {
    match w
    case PutView(v) => ViewPut(db, v)
    case DeleteView(n) => ViewDeleted(db, n)
    case PutService(h, svc) => ServicePut(db, h, svc)
    case DeleteService(n) => ServiceDeleted(db, n)
    case PutRecord(r) => RecordPut(db, r)
    case DeleteRecord(id) => RecordDeleted(db, id)
    case ReplaceAll(vs, ss, rs) => RegistryReplaced(db, vs, ss, rs)
    case PutSettings(v) => Ok(SettingsPut(db, v))
    case PutSettingsRenamingZone(v, from, to) => Ok(ZoneRenamed(db, v, from, to))
    case PutDHCPSettings(dhcp) => DHCPPut(db, dhcp)
    case SetBlacklistSettings(b) => Ok(BlacklistPut(db, b))
    case PutBlacklistList(h, l) => ListPut(db, h, l)
    case DeleteBlacklistList(n) => ListDeleted(db, n)
    case SetBlacklistSnapshot(n, ds, sk, et, lm, at) => BodySet(db, n, ds, sk, et, lm, at)
    case SetBlacklistError(n, msg, at) => Ok(ErrorSet(db, n, msg, at))
    case TouchBlacklistAttempt(n, at) => Ok(Touched(db, n, at))
    case PutBlacklistRule(r) => RulePut(db, r)
    case DeleteBlacklistRule(d) => RuleDeleted(db, d)
    case ReplaceBlacklist(kept, b, ls, rs) => PolicyImported(db, kept, b, ls, rs)
    case ApplySnapshot(input) => SnapshotApplied(db, input)
    case SetReplicaState(p, v) => Ok(db.(node := db.node.(primary := p, held := v)))
    case RecordPromotion(at) => Ok(db.(node := db.node.(promotedAt := Some(at))))
    case FollowPrimary(p, v) => Ok(db.(node := Node(p, v, None)))
  }

  // What a write leaves: all of it, or, when it fails, nothing of it.
  function After(db: Db, w: Write): Db {
    match Perform(db, w) case Ok(d) => d case Err(_) => db
  }

  // Writes that replicas must not hear about.
  predicate NodeOnly(w: Write) {
    || w.PutDHCPSettings? || w.SetBlacklistSnapshot? || w.SetBlacklistError? || w.TouchBlacklistAttempt?
    || w.SetReplicaState? || w.RecordPromotion? || w.FollowPrimary?
  }
}
