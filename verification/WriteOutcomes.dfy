/** What each write to the views and services leaves in the tables, row by row, and when
    it is refused. */
module WriteOutcomes {
  import opened Wrappers
  import opened Sequences
  import opened Tables
  import opened StoreSound
  import SnapshotFacts

  // Two databases share one configuration exactly when they hold the same views, subnets,
  // services, aliases, block settings and rules, the same addresses in order for each
  // service, the same records in any order and under any numbers, the same thirteen columns
  // of the settings, and the same definitions of the same lists.
  lemma SameConfigExactly(a: Db, b: Db)
    ensures ConfigOf(a) == ConfigOf(b) <==>
      && a.views == b.views && a.subnets == b.subnets && a.services == b.services && a.aliases == b.aliases
      && a.blacklist == b.blacklist && a.rules == b.rules
      && (forall n :: n in a.services ==> AddressesOf(a.addresses, n) == AddressesOf(b.addresses, n))
      && (forall r: Record :: multiset(RecordsOf(a.records))[r] == multiset(RecordsOf(b.records))[r])
      && (a.settings.Some? <==> b.settings.Some?)
      && (a.settings.Some? && b.settings.Some? ==> a.settings.value.shared == b.settings.value.shared)
      && a.lists.Keys == b.lists.Keys && forall n :: n in a.lists && n in b.lists ==> a.lists[n].def == b.lists[n].def
  {
    hide AddressesOf;
    var x, y := ConfigOf(a), ConfigOf(b);
    if x == y {
      forall n | n in a.services ensures AddressesOf(a.addresses, n) == AddressesOf(b.addresses, n) {
        assert x.addresses[n] == y.addresses[n];
      }
      forall n | n in a.lists ensures n in b.lists && a.lists[n].def == b.lists[n].def {
        assert n in x.lists && x.lists[n] == y.lists[n];
      }
      assert x.lists.Keys == a.lists.Keys && y.lists.Keys == b.lists.Keys;
    }
  }

  // ----- views -----

  // The view is there with exactly these subnets; every other keeps its own.
  ghost predicate ViewWritten(db: Db, after: Db, v: View) {
    && after.views == db.views + {v.name}
    && (forall c :: c in after.subnets <==> c in v.subnets || (c in db.subnets && db.subnets[c] != v.name))
    && (forall c :: c in after.subnets ==> after.subnets[c] == if c in v.subnets then v.name else db.subnets[c])
    && after == db.(views := after.views, subnets := after.subnets, version := after.version)
  }

  // A view is put, over one of its name or not, exactly when it names no subnet twice and
  // none that another view claims.
  lemma PutViewOutcome(db: Db, v: View)
    ensures var r := Perform(db, PutView(v));
      && (r.Ok? <==>
            && (forall i, j :: 0 <= i < j < |v.subnets| ==> v.subnets[i] != v.subnets[j])
            && (forall c :: c in v.subnets && c in db.subnets ==> db.subnets[c] == v.name))
      && (if r.Ok? then ViewWritten(db, r.value, v) else r.error == DuplicateCIDR)
  {
  }

  // A view is dropped, with its subnets, exactly when it is there and no address and no
  // record is tagged with it.
  lemma DeleteViewOutcome(db: Db, name: string)
    ensures var r := Perform(db, DeleteView(name));
      var used := name != "" && ((exists a :: a in db.addresses && a.address.view == name)
                                 || exists q :: q in db.records && q.record.view == name);
      && (r.Err? ==> r.error == if used then ViewInUse else NotFound)
      && (r.Ok? <==> name in db.views && !used)
      && (r.Ok? ==>
            && r.value.views == db.views - {name}
            && (forall c :: c in r.value.subnets <==> c in db.subnets && db.subnets[c] != name)
            && (forall c :: c in r.value.subnets ==> r.value.subnets[c] == db.subnets[c])
            && r.value == db.(views := r.value.views, subnets := r.value.subnets, version := r.value.version))
  {
  }

  // ----- the rows of one service -----

  function IsOf(service: string): AddressRow -> bool { (r: AddressRow) => r.service == service }

  function AddressIn(): AddressRow -> Address { (r: AddressRow) => r.address }

  // A service's addresses are those of its rows, in the order of the rows.
  lemma {:induction false} AddressesByPosition(rows: seq<AddressRow>, service: string) returns (at: seq<nat>)
    ensures Selects(at, rows, IsOf(service), AddressIn(), AddressesOf(rows, service))
  {
    hide Selects;
    at := [];
    if rows == [] {
      SelectsNone(IsOf(service), AddressIn());
    } else {
      var n := |rows| - 1;
      at := AddressesByPosition(rows[..n], service);
      Front(rows);
      SelectsMore(at, rows[..n], IsOf(service), AddressIn(), AddressesOf(rows[..n], service), rows[n]);
      if rows[n].service == service {
        at := at + [n];
      } else {
        assert AddressesOf(rows[..n], service) + [] == AddressesOf(rows[..n], service);
      }
    }
  }

  lemma {:induction false} WithoutLeaves(rows: seq<AddressRow>, gone: string, n: string)
    ensures AddressesOf(Without(rows, gone), n) == if n == gone then [] else AddressesOf(rows, n)
  {
    if rows != [] {
      var k := |rows| - 1;
      WithoutLeaves(rows[..k], gone, n);
      if rows[k].service != gone {
        SnapshotFacts.OneMoreAddress(Without(rows[..k], gone), rows[k], n);
      } else {
        assert Without(rows[..k], gone) + [] == Without(rows[..k], gone);
        assert AddressesOf(rows[..k], n) + [] == AddressesOf(rows[..k], n);
      }
    }
  }

  lemma {:induction false} NoRowsNoAddresses(rows: seq<AddressRow>, n: string)
    requires forall r :: r in rows ==> r.service != n
    ensures AddressesOf(rows, n) == []
  {
    if rows != [] { NoRowsNoAddresses(rows[..|rows| - 1], n); }
  }

  // ----- services -----

  // The service is there: its row, its addresses in order, its aliases and no others.
  predicate Holds(db: Db, svc: Service) {
    && svc.name in db.services && db.services[svc.name] == svc.row
    && AddressesOf(db.addresses, svc.name) == svc.addresses
    && OwnedBy(db.aliases, svc.name) == (set a | a in svc.aliases)
  }

  // Nothing of the name is there.
  predicate Lacks(db: Db, name: string) {
    name !in db.services && AddressesOf(db.addresses, name) == [] && OwnedBy(db.aliases, name) == {}
  }

  // The name has the same row, addresses and aliases, or none, in both.
  predicate Agrees(a: Db, b: Db, name: string) {
    && (name in a.services <==> name in b.services)
    && (name in a.services ==> a.services[name] == b.services[name])
    && AddressesOf(a.addresses, name) == AddressesOf(b.addresses, name)
    && OwnedBy(a.aliases, name) == OwnedBy(b.aliases, name)
  }

  predicate OnlyServices(db: Db, after: Db) {
    after == db.(services := after.services, addresses := after.addresses, aliases := after.aliases,
                 version := after.version)
  }

  // Its addresses are tagged with views there are, and its aliases differ and are free, or
  // held by the row it replaces.
  predicate Attachable(db: Db, svc: Service, replaced: Option<string>) {
    && (forall a :: a in svc.addresses ==> a.view == "" || a.view in db.views)
    && (forall i, j :: 0 <= i < j < |svc.aliases| ==> svc.aliases[i] != svc.aliases[j])
    && (forall a :: a in svc.aliases && a in db.aliases ==> replaced == Some(db.aliases[a]))
  }

  lemma OwnedAfter(m: map<string, string>, keys: seq<string>, owner: string, n: string)
    requires forall k :: k in keys ==> k !in m
    ensures OwnedBy(m + AllTo(keys, owner), n) == OwnedBy(m, n) + if n == owner then (set k | k in keys) else {}
  {
  }

  lemma OwnedWithout(m: map<string, string>, gone: string, n: string)
    ensures OwnedBy(m - OwnedBy(m, gone), n) == if n == gone then {} else OwnedBy(m, n)
  {
  }

  // What hanging addresses and aliases on a service adds.
  lemma AttachedHas(d: Db, svc: Service, n: string)
    requires ServiceAttached(d, svc).Ok?
    ensures var e := ServiceAttached(d, svc).value;
      && OnlyServices(d, e) && e.services == d.services
      && AddressesOf(e.addresses, n) == AddressesOf(d.addresses, n) + (if n == svc.name then svc.addresses else [])
      && OwnedBy(e.aliases, n) == OwnedBy(d.aliases, n) + (if n == svc.name then (set a | a in svc.aliases) else {})
  {
    SnapshotFacts.AddressesGrow(d.addresses, svc.name, svc.addresses, n);
    OwnedAfter(d.aliases, svc.aliases, svc.name, n);
  }

  lemma OrphansLack(db: Db, name: string)
    requires Sound(db) && name !in db.services
    ensures Lacks(db, name)
  {
    NoRowsNoAddresses(db.addresses, name);
  }

  // A new service is put exactly when its name is free and what hangs on it fits. Then it is
  // there as handed over, and every other service is as it was.
  lemma InsertServiceOutcome(db: Db, svc: Service)
    requires Sound(db)
    ensures var r := Perform(db, PutService(None, svc));
      && (r.Ok? <==> svc.name !in db.services && Attachable(db, svc, None))
      && (r.Ok? ==> Holds(r.value, svc) && OnlyServices(db, r.value))
      && (r.Ok? ==> forall n :: n != svc.name ==> Agrees(db, r.value, n))
  {
    InsertAccepted(db, svc);
    assert Perform(db, PutService(None, svc)) == ServicePut(db, None, svc);
    hide Perform, ServicePut, Attachable, Sound;
    if ServicePut(db, None, svc).Ok? {
      var e := ServicePut(db, None, svc).value;
      InsertedHas(db, svc, svc.name);
      OrphansLack(db, svc.name);
      InsertedThere(db, e, svc);
      forall n | n != svc.name ensures Agrees(db, e, n) {
        InsertedHas(db, svc, n);
        InsertedElsewhere(db, e, svc, n);
      }
    }
  }

  lemma InsertAccepted(db: Db, svc: Service)
    ensures ServicePut(db, None, svc).Ok? <==> svc.name !in db.services && Attachable(db, svc, None)
  {
  }

  // What is there under a name after a service has been inserted.
  predicate InsertedAt(db: Db, e: Db, svc: Service, n: string) {
    && OnlyServices(db, e) && e.services == db.services[svc.name := svc.row]
    && AddressesOf(e.addresses, n) == AddressesOf(db.addresses, n) + (if n == svc.name then svc.addresses else [])
    && OwnedBy(e.aliases, n) == OwnedBy(db.aliases, n) + (if n == svc.name then (set a | a in svc.aliases) else {})
  }

  lemma InsertedHas(db: Db, svc: Service, n: string)
    requires ServicePut(db, None, svc).Ok?
    ensures InsertedAt(db, ServicePut(db, None, svc).value, svc, n)
  {
    AttachedHas(Bumped(db.(services := db.services[svc.name := svc.row]), 1), svc, n);
  }

  lemma InsertedThere(db: Db, e: Db, svc: Service)
    requires InsertedAt(db, e, svc, svc.name) && Lacks(db, svc.name)
    ensures Holds(e, svc)
  {
  }

  lemma InsertedElsewhere(db: Db, e: Db, svc: Service, n: string)
    requires InsertedAt(db, e, svc, n) && n != svc.name
    ensures Agrees(db, e, n)
  {
  }

  // An existing one is replaced exactly when the name it is to have is its own or free, and
  // what hangs on it fits once its own aliases are gone. Then it is there as handed over;
  // its old name, if it has another now, is gone with all its rows; and every other service
  // is as it was.
  lemma EditServiceOutcome(db: Db, handle: string, svc: Service)
    requires Sound(db) && handle in db.services
    ensures var r := Perform(db, PutService(Some(handle), svc));
      && (r.Ok? <==> (svc.name == handle || svc.name !in db.services) && Attachable(db, svc, Some(handle)))
      && (r.Ok? ==> Holds(r.value, svc) && OnlyServices(db, r.value))
      && (r.Ok? && handle != svc.name ==> Lacks(r.value, handle))
      && (r.Ok? ==> forall n :: n != svc.name && n != handle ==> Agrees(db, r.value, n))
  {
    EditAccepted(db, handle, svc);
    assert Perform(db, PutService(Some(handle), svc)) == ServicePut(db, Some(handle), svc);
    hide Perform, ServicePut, Attachable;
    if ServicePut(db, Some(handle), svc).Ok? {
      var e := ServicePut(db, Some(handle), svc).value;
      EditedHas(db, handle, svc, svc.name);
      EditedHas(db, handle, svc, handle);
      EditedEnds(db, e, handle, svc);
      forall n | n != svc.name && n != handle ensures Agrees(db, e, n) {
        EditedHas(db, handle, svc, n);
        EditedElsewhere(db, e, handle, svc, n);
      }
    }
  }

  lemma EditedElsewhere(db: Db, e: Db, handle: string, svc: Service, n: string)
    requires EditedAt(db, e, handle, svc, n) && n != handle && n != svc.name
    ensures Agrees(db, e, n)
  {
  }

  lemma EditedEnds(db: Db, e: Db, handle: string, svc: Service)
    requires Sound(db) && handle in db.services && (svc.name == handle || svc.name !in db.services)
    requires EditedAt(db, e, handle, svc, handle) && EditedAt(db, e, handle, svc, svc.name)
    ensures Holds(e, svc) && (handle != svc.name ==> Lacks(e, handle))
  {
    if svc.name !in db.services { OrphansLack(db, svc.name); }
  }

  lemma EditAccepted(db: Db, handle: string, svc: Service)
    requires handle in db.services
    ensures ServicePut(db, Some(handle), svc).Ok? <==>
      (svc.name == handle || svc.name !in db.services) && Attachable(db, svc, Some(handle))
  {
    hide Without;
    var d := Bumped(ServiceCleared(db, handle).(services := (db.services - {handle})[svc.name := svc.row]), 1);
    assert forall a :: a in d.aliases <==> a in db.aliases && db.aliases[a] != handle;
  }

  // What is there under a name after a service has been replaced.
  predicate EditedAt(db: Db, e: Db, handle: string, svc: Service, n: string) {
    && OnlyServices(db, e) && e.services == (db.services - {handle})[svc.name := svc.row]
    && AddressesOf(e.addresses, n) ==
         (if n == handle then [] else AddressesOf(db.addresses, n)) + (if n == svc.name then svc.addresses else [])
    && OwnedBy(e.aliases, n) ==
         (if n == handle then {} else OwnedBy(db.aliases, n))
         + (if n == svc.name then (set a | a in svc.aliases) else {})
  }

  lemma EditedHas(db: Db, handle: string, svc: Service, n: string)
    requires handle in db.services && ServicePut(db, Some(handle), svc).Ok?
    ensures EditedAt(db, ServicePut(db, Some(handle), svc).value, handle, svc, n)
  {
    var d := Bumped(ServiceCleared(db, handle).(services := (db.services - {handle})[svc.name := svc.row]), 1);
    AttachedHas(d, svc, n);
    WithoutLeaves(db.addresses, handle, n);
    OwnedWithout(db.aliases, handle, n);
  }

  // Replacing one that is gone changes nothing, and is refused where something hangs on it.
  lemma StaleServiceOutcome(db: Db, handle: string, svc: Service)
    requires handle !in db.services
    ensures After(db, PutService(Some(handle), svc)) == db
    ensures Perform(db, PutService(Some(handle), svc)).Ok? <==> svc.addresses == [] && svc.aliases == []
  {
  }

  // A service is deleted, with its addresses and aliases, exactly when it is there.
  lemma DeleteServiceOutcome(db: Db, name: string)
    ensures var r := Perform(db, DeleteService(name));
      && (r.Ok? <==> name in db.services)
      && (r.Ok? ==> Lacks(r.value, name) && OnlyServices(db, r.value))
      && (r.Ok? ==> forall n :: n != name ==> Agrees(db, r.value, n))
  {
    forall n
      ensures AddressesOf(Without(db.addresses, name), n) == if n == name then [] else AddressesOf(db.addresses, n)
      ensures OwnedBy(db.aliases - OwnedBy(db.aliases, name), n) == if n == name then {} else OwnedBy(db.aliases, n)
    {
      WithoutLeaves(db.addresses, name, n);
      OwnedWithout(db.aliases, name, n);
    }
  }
}
