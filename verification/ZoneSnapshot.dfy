/** The immutable snapshot the query path reads: a matcher and one index per view. */
module ZoneSnapshot {
  import opened Wrappers
  import opened Net
  import opened Names
  import Matcher
  import opened ZoneIndex

  datatype Snapshot = Snapshot(matcher: Matcher.Matcher, views: map<string, Index>, zone: string,
                               reverseZones: seq<Prefix>)

  datatype Error = BadViews(error: Matcher.Error) | BadView(view: string, name: string)

  // The index a view is answered from: its own, or the default view's.
  function IndexFor(snap: Snapshot, view: string): Index {
    if view in snap.views then snap.views[view]
    else if "" in snap.views then snap.views[""] else Index(map[], map[])
  }

  function Lookup(snap: Snapshot, view: string, name: string): seq<RR> {
    var fwd := IndexFor(snap, view).forward;
    if Lower(name) in fwd then fwd[Lower(name)] else []
  }

  // The target of a reverse query, or "".
  function LookupPTR(snap: Snapshot, view: string, arpa: string): string {
    var rev := IndexFor(snap, view).reverse;
    if Lower(arpa) in rev then rev[Lower(arpa)] else ""
  }

  // The view whose rule answers: an unknown one is answered as the default view.
  function Effective(names: seq<string>, view: string): string {
    if view in names then view else ""
  }

  // Every view's index follows the rule and keeps CNAMEs alone.
  ghost predicate Built(snap: Snapshot, text: AddrText, input: Input, names: seq<string>) {
    && (forall v :: v in snap.views <==> v == "" || v in names)
    && ViewsFollow(snap.views, text, input, snap.zone)
  }

  ghost predicate ViewsFollow(views: map<string, Index>, text: AddrText, input: Input, zone: string) {
    forall v :: v in views ==> Follows(views[v], text, input, v, zone) && Accepts(text, input, v, zone)
  }

  lemma OneMoreFollows(views: map<string, Index>, text: AddrText, input: Input, zone: string, v: string, idx: Index)
    requires ViewsFollow(views, text, input, zone) && Follows(idx, text, input, v, zone)
      && Accepts(text, input, v, zone)
    ensures ViewsFollow(views[v := idx], text, input, zone)
  {
  }

  method Build(views: seq<Matcher.View>, prefixes: Matcher.PrefixText, text: AddrText, input: Input, zone: string)
    returns (r: Result<Snapshot, Error>)
    ensures r.Ok? <==>
      Matcher.Acceptable(Matcher.Claims(prefixes, views)) &&
      Accepts(text, input, "", Lower(zone)) && forall v :: v in views ==> Accepts(text, input, v.name, Lower(zone))
    ensures r.Ok? ==> r.value.zone == Lower(zone) && r.value.reverseZones == input.reverseZones
    ensures r.Ok? ==> Built(r.value, text, input, r.value.matcher.names)
    ensures r.Ok? ==> forall v :: v in r.value.matcher.names <==> exists w :: w in views && w.name == v
  {
    var m := Matcher.NewMatcher(prefixes, views);
    if m.Err? {
      return Err(BadViews(m.error));
    }
    NamesCover(views, m.value.names);
    var built := BuildIndexes([""] + m.value.names, text, input, Lower(zone));
    if built.Err? {
      return Err(built.error);
    }
    r := Ok(Snapshot(m.value, built.value, Lower(zone), input.reverseZones));
  }

  // One index for each of these views, or the first refusal.
  method BuildIndexes(todo: seq<string>, text: AddrText, input: Input, zone: string)
    returns (r: Result<map<string, Index>, Error>)
    ensures r.Ok? <==> forall v :: v in todo ==> Accepts(text, input, v, zone)
    ensures r.Ok? ==> ViewsFollow(r.value, text, input, zone) && forall v :: v in r.value <==> v in todo
  {
    var views: map<string, Index> := map[];
    for i := 0 to |todo|
      invariant forall v :: v in views <==> v in todo[..i]
      invariant ViewsFollow(views, text, input, zone)
    {
      assert todo[..i + 1] == todo[..i] + [todo[i]];
      var idx := BuildIndex(text, input, todo[i], zone);
      if idx.Err? {
        assert !Accepts(text, input, todo[i], zone);
        return Err(BadView(todo[i], idx.error));
      }
      OneMoreFollows(views, text, input, zone, todo[i], idx.value);
      views := views[todo[i] := idx.value];
    }
    assert todo[..|todo|] == todo;
    r := Ok(views);
  }

  lemma NamesCover(views: seq<Matcher.View>, names: seq<string>)
    requires multiset(names) == multiset(seq(|views|, i requires 0 <= i < |views| => views[i].name))
    ensures forall v :: v in names <==> exists w :: w in views && w.name == v
  {
    var all := seq(|views|, i requires 0 <= i < |views| => views[i].name);
    forall v ensures v in names <==> exists w :: w in views && w.name == v {
      assert v in names <==> v in multiset(all);
      if v in names {
        var i :| 0 <= i < |all| && all[i] == v;
        assert views[i] in views;
      }
      if exists w :: w in views && w.name == v {
        var w :| w in views && w.name == v;
        var i :| 0 <= i < |views| && views[i] == w;
        assert all[i] == v;
      }
    }
  }

  // A lookup is the rule for the view, or for the default one where the view is unknown, at
  // the lower-cased name.
  lemma LookupFollowsTheRule(snap: Snapshot, text: AddrText, input: Input, names: seq<string>, view: string,
                             name: string)
    requires Built(snap, text, input, names)
    ensures var v := if view in names then view else "";
      && v == Effective(names, view)
      && Lookup(snap, view, name) == Answer(text, input, v, snap.zone, Lower(name))
      && LookupPTR(snap, view, name) ==
           match Target(text, input, v, snap.zone, Lower(name)) case Some(t) => t case None => ""
  {
    assert "" in snap.views;
    var v := if view in snap.views then view else "";
    assert IndexFor(snap, view) == snap.views[v];
    assert Follows(snap.views[v], text, input, v, snap.zone);
  }

  // ----- what a name may hold -----

  // What the build writes at a name: records of that name, a CNAME alone, and CNAME
  // targets in lower case.
  ghost predicate WellFormed(rrs: seq<RR>, name: string) {
    && Coexists(rrs)
    && (forall rr :: rr in rrs ==> rr.name == name && (rr.kind == "CNAME" ==> Lower(rr.value) == rr.value))
  }

  lemma {:induction false} ManualIsWellFormed(records: seq<Record>, name: string)
    ensures forall rr :: rr in ManualAnswer(records, name) ==> rr.name == name && Lower(rr.value) == rr.value
  {
    if records != [] {
      ManualIsWellFormed(records[..|records| - 1], name);
      LowerTwice(records[|records| - 1].value);
    }
  }

  lemma {:induction false} ServiceIsPlain(text: AddrText, leases: seq<Lease>, svcs: seq<Service>, view: string,
                                          zone: string, name: string)
    ensures forall rr :: rr in ServiceAnswer(text, leases, svcs, view, zone, name) ==>
      rr.name == name && rr.kind != "CNAME"
  {
    if svcs != [] {
      ServiceIsPlain(text, leases, svcs[..|svcs| - 1], view, zone, name);
    } else {
      LeaseIsPlain(text, leases, zone, name);
    }
  }

  lemma {:induction false} LeaseIsPlain(text: AddrText, leases: seq<Lease>, zone: string, name: string)
    ensures forall rr :: rr in LeaseAnswer(text, leases, zone, name) ==> rr.name == name && rr.kind != "CNAME"
  {
    if leases != [] {
      LeaseIsPlain(text, leases[..|leases| - 1], zone, name);
    }
  }

  // In an accepted snapshot every name holds either one CNAME and nothing else, or
  // no CNAME at all.
  lemma LookupIsWellFormed(snap: Snapshot, text: AddrText, input: Input, names: seq<string>, view: string, name: string)
    requires Built(snap, text, input, names)
    ensures WellFormed(Lookup(snap, view, name), Lower(name))
  {
    LookupFollowsTheRule(snap, text, input, names, view, name);
    var v := Effective(names, view);
    assert v in snap.views && Accepts(text, input, v, snap.zone);
    assert Coexists(Answer(text, input, v, snap.zone, Lower(name)));
    ManualIsWellFormed(PickedRecords(input, v), Lower(name));
    ServiceIsPlain(text, input.leases, input.services, v, snap.zone, Lower(name));
  }
}
