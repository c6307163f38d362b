/** The order queries list views and services in, which is the same wherever the
    configuration is. */
module Listings {
  import Texts
  import opened Tables
  import opened SnapshotReads
  import SnapshotFacts

  // Views by name, each with its subnets in order; services by name, each with its
  // aliases in order.
  predicate ViewsInOrder(vs: seq<View>) {
    (forall i, j :: 0 <= i < j < |vs| ==> Texts.Less(vs[i].name, vs[j].name)) && forall v ::
      v in vs ==> Texts.Ascending(v.subnets)
  }

  predicate ServicesInOrder(svcs: seq<Service>) {
    (forall i, j :: 0 <= i < j < |svcs| ==> Texts.Less(svcs[i].name, svcs[j].name)) && forall s ::
      s in svcs ==> Texts.Ascending(s.aliases)
  }

  predicate ViewListOf(vs: seq<View>, names: seq<string>) {
    |vs| == |names| && forall i :: 0 <= i < |vs| ==> vs[i].name == names[i]
  }

  predicate ServiceListOf(svcs: seq<Service>, names: seq<string>) {
    |svcs| == |names| && forall i :: 0 <= i < |svcs| ==> svcs[i].name == names[i]
  }

  lemma AscendingIsDistinct(keys: seq<string>)
    requires Texts.Ascending(keys)
    ensures Distinct(keys)
  {
    forall i, j | 0 <= i < j < |keys| ensures keys[i] != keys[j] { Texts.LessIsStrict(keys[i], keys[j]); }
  }

  lemma OneMoreView(vs: seq<View>, names: seq<string>, i: nat, v: View)
    requires i < |names| && Texts.Ascending(names) && ViewListOf(vs, names[..i]) && ViewsInOrder(vs)
    requires v.name == names[i] && Texts.Ascending(v.subnets)
    ensures ViewListOf(vs + [v], names[..i + 1]) && ViewsInOrder(vs + [v])
  {
  }

  lemma OneMoreService(svcs: seq<Service>, names: seq<string>, i: nat, svc: Service)
    requires i < |names| && Texts.Ascending(names) && ServiceListOf(svcs, names[..i]) && ServicesInOrder(svcs)
    requires svc.name == names[i] && Texts.Ascending(svc.aliases)
    ensures ServiceListOf(svcs + [svc], names[..i + 1]) && ServicesInOrder(svcs + [svc])
  {
  }

  lemma ViewsListed(vs: seq<View>, names: seq<string>, all: set<string>)
    requires ViewListOf(vs, names) && Texts.Ascending(names) && forall n :: n in names <==> n in all
    ensures ViewsDiffer(vs) && SnapshotFacts.ViewNames(vs) == all
  {
    AscendingIsDistinct(names);
    forall n | n in all ensures n in SnapshotFacts.ViewNames(vs) {
      var i :| 0 <= i < |names| && names[i] == n;
      assert vs[i] in vs;
    }
  }

  lemma ServicesListed(svcs: seq<Service>, names: seq<string>, all: set<string>)
    requires ServiceListOf(svcs, names) && Texts.Ascending(names) && forall n :: n in names <==> n in all
    ensures SnapshotFacts.NamesDiffer(svcs) && ServiceNames(svcs) == all
  {
    AscendingIsDistinct(names);
    forall n | n in all ensures n in ServiceNames(svcs) {
      var i :| 0 <= i < |names| && names[i] == n;
      assert svcs[i] in svcs;
    }
  }

  function ViewNameList(vs: seq<View>): (r: seq<string>)
    ensures ViewListOf(vs, r)
  {
    seq(|vs|, i requires 0 <= i < |vs| => vs[i].name)
  }

  function ServiceNameList(svcs: seq<Service>): (r: seq<string>)
    ensures ServiceListOf(svcs, r)
  {
    seq(|svcs|, i requires 0 <= i < |svcs| => svcs[i].name)
  }

  // Nodes that share a configuration list the same views and the same services, in the
  // same order, so the last service to claim a name is the same one everywhere.
  lemma SameConfigSameLists(cfg: Config, vs: seq<View>, ws: seq<View>, svcs: seq<Service>, tvcs: seq<Service>)
    requires ReadsViews(vs, cfg) && ViewsInOrder(vs) && ReadsViews(ws, cfg) && ViewsInOrder(ws)
    requires ReadsServices(svcs, cfg) && ServicesInOrder(svcs) && ReadsServices(tvcs, cfg) && ServicesInOrder(tvcs)
    ensures vs == ws && svcs == tvcs
  {
    SameViews(cfg, vs, ws);
    SameServices(cfg, svcs, tvcs);
  }

  lemma SameViews(cfg: Config, vs: seq<View>, ws: seq<View>)
    requires ReadsViews(vs, cfg) && ViewsInOrder(vs) && ReadsViews(ws, cfg) && ViewsInOrder(ws)
    ensures vs == ws
  {
    var a, b := ViewNameList(vs), ViewNameList(ws);
    forall n ensures n in a <==> n in b {
      ViewNamed(vs, a, n);
      ViewNamed(ws, b, n);
    }
    Texts.AscendingIsUnique(a, b);
    forall i | 0 <= i < |vs| ensures vs[i] == ws[i] {
      assert a[i] == b[i] && vs[i] in vs && ws[i] in ws;
      Texts.AscendingIsUnique(vs[i].subnets, ws[i].subnets);
    }
  }

  lemma SameServices(cfg: Config, svcs: seq<Service>, tvcs: seq<Service>)
    requires ReadsServices(svcs, cfg) && ServicesInOrder(svcs) && ReadsServices(tvcs, cfg) && ServicesInOrder(tvcs)
    ensures svcs == tvcs
  {
    var a, b := ServiceNameList(svcs), ServiceNameList(tvcs);
    forall n ensures n in a <==> n in b {
      ServiceNamed(svcs, a, n);
      ServiceNamed(tvcs, b, n);
    }
    Texts.AscendingIsUnique(a, b);
    forall i | 0 <= i < |svcs| ensures svcs[i] == tvcs[i] {
      assert a[i] == b[i] && svcs[i] in svcs && tvcs[i] in tvcs;
      Texts.AscendingIsUnique(svcs[i].aliases, tvcs[i].aliases);
    }
  }

  lemma ViewNamed(vs: seq<View>, names: seq<string>, n: string)
    requires ViewListOf(vs, names)
    ensures n in names <==> n in SnapshotFacts.ViewNames(vs)
  {
    if n in names {
      var i :| 0 <= i < |names| && names[i] == n;
      assert vs[i] in vs;
    }
    if n in SnapshotFacts.ViewNames(vs) {
      var v :| v in vs && v.name == n;
      var i :| 0 <= i < |vs| && vs[i] == v;
      assert names[i] == n;
    }
  }

  lemma ServiceNamed(svcs: seq<Service>, names: seq<string>, n: string)
    requires ServiceListOf(svcs, names)
    ensures n in names <==> n in ServiceNames(svcs)
  {
    if n in names {
      var i :| 0 <= i < |names| && names[i] == n;
      assert svcs[i] in svcs;
    }
    if n in ServiceNames(svcs) {
      var s :| s in svcs && s.name == n;
      var i :| 0 <= i < |svcs| && svcs[i] == s;
      assert names[i] == n;
    }
  }
}
