/** Seeding the built-in lists at startup, and what it leaves beside a configuration. */
module Seeding {
  import opened Wrappers
  import opened Tables
  import opened StoreFacts

  // Inserts, in the manifest's order, the first n of its lists the database lacks.
  function Seeded(db: Db, manifest: seq<ListDef>, n: nat): Db
    requires n <= |manifest|
  {
    if n == 0 then db
    else
      var d := Seeded(db, manifest, n - 1);
      if manifest[n - 1].name in db.lists then d else After(d, PutBlacklistList(None, manifest[n - 1]))
  }

  ghost predicate Ships(db: Db, manifest: seq<ListDef>) { forall l :: l in manifest ==> l.name in db.lists }

  lemma {:induction false} SeededSame(db: Db, manifest: seq<ListDef>, n: nat)
    requires n <= |manifest| && forall i :: 0 <= i < n ==> manifest[i].name in db.lists
    ensures Seeded(db, manifest, n) == db
  {
    if n > 0 { SeededSame(db, manifest, n - 1); }
  }

  lemma {:induction false} SeededGrows(db: Db, manifest: seq<ListDef>, n: nat)
    requires n <= |manifest|
    ensures db.lists.Keys <= Seeded(db, manifest, n).lists.Keys
    ensures forall i :: 0 <= i < n ==> manifest[i].name in Seeded(db, manifest, n).lists
  {
    if n > 0 { SeededGrows(db, manifest, n - 1); }
  }

  lemma {:induction false} SeededNamed(db: Db, manifest: seq<ListDef>, n: nat)
    requires n <= |manifest|
    ensures Named(db) ==> Named(Seeded(db, manifest, n))
    ensures Seeded(db, manifest, n).node == db.node
  {
    if n > 0 { SeededNamed(db, manifest, n - 1); }
  }

  lemma SeededSameShips(db: Db, manifest: seq<ListDef>)
    requires ListDefs(Seeded(db, manifest, |manifest|).lists).Keys == ListDefs(db.lists).Keys
    ensures Ships(db, manifest)
  {
    var d := Seeded(db, manifest, |manifest|);
    SeededGrows(db, manifest, |manifest|);
    forall l | l in manifest ensures l.name in db.lists {
      var i :| 0 <= i < |manifest| && manifest[i] == l;
      assert l.name in ListDefs(d.lists);
    }
  }

  // Seeding leaves what is shared alone exactly when no shipped list is missing.
  lemma SeedingKeepsConfigExactly(db: Db, manifest: seq<ListDef>)
    ensures ConfigOf(Seeded(db, manifest, |manifest|)) == ConfigOf(db) <==> Ships(db, manifest)
  {
    var d := Seeded(db, manifest, |manifest|);
    if Ships(db, manifest) {
      SeededSame(db, manifest, |manifest|);
    }
    if ConfigOf(d) == ConfigOf(db) {
      assert ConfigOf(d).lists == ConfigOf(db).lists;
      SeededSameShips(db, manifest);
    }
  }

  // The names among the first n that the database lacks.
  function Missing(db: Db, manifest: seq<ListDef>, n: nat): set<string>
    requires n <= |manifest|
  {
    set i | 0 <= i < n && manifest[i].name !in db.lists :: manifest[i].name
  }

  // The first configuration is the second with lists of these names put in beside.
  predicate Beside(a: Config, b: Config, extra: set<string>) {
    extra <= a.lists.Keys && a.lists - extra == b.lists && a.(lists := map[]) == b.(lists := map[])
  }

  lemma BesideExactly(a: Config, b: Config, extra: set<string>)
    requires Beside(a, b, extra)
    ensures a == b <==> extra <= b.lists.Keys
  {
    if extra <= b.lists.Keys {
      assert b.lists.Keys == a.lists.Keys - extra;
      assert extra == {};
      assert a.lists - {} == a.lists;
      assert a == a.(lists := map[]).(lists := a.lists) && b == b.(lists := map[]).(lists := b.lists);
    }
  }

  lemma BesideMore(a: Config, b: Config, c: Config, extra: set<string>, more: set<string>)
    requires Beside(a, b, more) && Beside(b, c, extra)
    ensures Beside(a, c, extra + more)
  {
    assert a.lists - (extra + more) == (a.lists - more) - extra;
  }

  lemma {:induction false} SeededFrame(db: Db, manifest: seq<ListDef>, n: nat)
    requires n <= |manifest|
    ensures var d := Seeded(db, manifest, n); d == db.(lists := d.lists, version := d.version)
  {
    if n > 0 { SeededFrame(db, manifest, n - 1); }
  }

  lemma OneListPut(d: Db, l: ListDef)
    ensures After(d, PutBlacklistList(None, l)).lists ==
      if l.name in d.lists then d.lists else d.lists[l.name := ListRow(l, NO_BODY)]
  {
  }

  // The first map with rows for these keys put in, and its own rows as they were.
  predicate Grown(a: map<string, ListRow>, b: map<string, ListRow>, extra: set<string>) {
    b.Keys == a.Keys + extra && forall k :: k in a ==> b[k] == a[k]
  }

  lemma GrownMore(a: map<string, ListRow>, b: map<string, ListRow>, extra: set<string>, l: ListDef)
    requires Grown(a, b, extra) && l.name !in a
    ensures Grown(a, if l.name in b then b else b[l.name := ListRow(l, NO_BODY)], extra + {l.name})
  {
  }

  // The lists alone.
  function SeededMap(lists: map<string, ListRow>, manifest: seq<ListDef>, n: nat): map<string, ListRow>
    requires n <= |manifest|
  {
    if n == 0 then lists
    else
      var m, l := SeededMap(lists, manifest, n - 1), manifest[n - 1];
      if l.name in lists || l.name in m then m else m[l.name := ListRow(l, NO_BODY)]
  }

  lemma {:induction false} SeededIsMap(db: Db, manifest: seq<ListDef>, n: nat)
    requires n <= |manifest|
    ensures Seeded(db, manifest, n).lists == SeededMap(db.lists, manifest, n)
  {
    if n > 0 {
      SeededIsMap(db, manifest, n - 1);
      OneListPut(Seeded(db, manifest, n - 1), manifest[n - 1]);
    }
  }

  lemma {:induction false} MapGrows(db: Db, manifest: seq<ListDef>, n: nat)
    requires n <= |manifest|
    ensures Grown(db.lists, SeededMap(db.lists, manifest, n), Missing(db, manifest, n))
  {
    if n > 0 {
      MapGrows(db, manifest, n - 1);
      MissingGrows(db, manifest, n - 1);
      if manifest[n - 1].name !in db.lists {
        GrownMore(db.lists, SeededMap(db.lists, manifest, n - 1), Missing(db, manifest, n - 1), manifest[n - 1]);
      }
    }
  }

  lemma SeededLists(db: Db, manifest: seq<ListDef>, n: nat)
    requires n <= |manifest|
    ensures Grown(db.lists, Seeded(db, manifest, n).lists, Missing(db, manifest, n))
  {
    SeededIsMap(db, manifest, n);
    MapGrows(db, manifest, n);
  }

  lemma MissingGrows(db: Db, manifest: seq<ListDef>, n: nat)
    requires n < |manifest|
    ensures Missing(db, manifest, n + 1) ==
      Missing(db, manifest, n) + (if manifest[n].name in db.lists then {} else {manifest[n].name})
  {
  }

  // Seeding puts the missing lists beside what is shared, and nothing else.
  lemma SeedingAddsExactly(db: Db, manifest: seq<ListDef>, n: nat)
    requires n <= |manifest|
    ensures Beside(ConfigOf(Seeded(db, manifest, n)), ConfigOf(db), Missing(db, manifest, n))
  {
    SeededFrame(db, manifest, n);
    SeededLists(db, manifest, n);
    ListsBeside(db, Seeded(db, manifest, n), Missing(db, manifest, n));
  }

  lemma ListsBeside(db: Db, d: Db, extra: set<string>)
    requires d == db.(lists := d.lists, version := d.version) && extra !! db.lists.Keys
    requires Grown(db.lists, d.lists, extra)
    ensures Beside(ConfigOf(d), ConfigOf(db), extra)
  {
    assert ListDefs(d.lists) - extra == ListDefs(db.lists);
    assert ConfigOf(d).(lists := map[]) == ConfigOf(db).(lists := map[]);
  }

  lemma BesideNothing(a: Config)
    ensures Beside(a, a, {})
  {
    assert a.lists - {} == a.lists;
  }
}
