/** One view's resolved names: leases, services and manual records written in
    ascending precedence, and the rule that says what each name ends up with. */
module ZoneIndex {
  import opened Wrappers
  import opened Net
  import opened Names
  import opened Arpa

  datatype RR = RR(name: string, kind: string, value: string)

  datatype Address = Address(text: string, view: string)

  datatype Service = Service(name: string, addresses: seq<Address>, aliases: seq<string>, proxy: string, routed: bool)

  datatype Record = Record(name: string, kind: string, value: string, view: string)

  datatype Lease = Lease(hostname: string, address: string)

  datatype Input = Input(services: seq<Service>, records: seq<Record>, leases: seq<Lease>, reverseZones: seq<Prefix>)

  datatype Index = Index(forward: map<string, seq<RR>>, reverse: map<string, string>)

  // What netip.ParseAddr makes of an address text; NoAddr for an error.
  type AddrText = string -> Addr

  // ----- names and addresses -----

  function Qualify(name: string, zone: string): string {
    var n := Lower(TrimSuffix(name, "."));
    if EndsWith(n + ".", zone) then n + "." else n + "." + zone
  }

  function AddrType(text: AddrText, s: string): string {
    if text(s).V4? then "A" else "AAAA"
  }

  predicate InZones(a: Addr, zones: seq<Prefix>) {
    exists z :: z in zones && Contains(z, a)
  }

  // The reverse key an address text derives, if it lies in a reverse zone.
  function DerivedKey(text: AddrText, zones: seq<Prefix>, s: string): Option<string> {
    if text(s) != NoAddr && InZones(text(s), zones) then Some(ArpaName(text(s))) else None
  }

  // ----- untagged means everywhere -----

  function Tagged<T>(tag: string, tagOf: T -> string, all: seq<T>): seq<T> {
    if all == [] then []
    else
      var rest := Tagged(tag, tagOf, all[..|all| - 1]);
      if tagOf(all[|all| - 1]) == tag then rest + [all[|all| - 1]] else rest
  }

  // The entries tagged with the view when there are any, else the untagged ones.
  function Pick<T>(view: string, tagOf: T -> string, all: seq<T>): seq<T> {
    if view != "" && Tagged(view, tagOf, all) != [] then Tagged(view, tagOf, all) else Tagged("", tagOf, all)
  }

  method PickLoop<T>(view: string, tagOf: T -> string, all: seq<T>) returns (picked: seq<T>)
    ensures picked == Pick(view, tagOf, all)
  {
    var tagged: seq<T>, untagged: seq<T> := [], [];
    for i := 0 to |all|
      invariant view != "" ==> tagged == Tagged(view, tagOf, all[..i])
      invariant view == "" ==> tagged == []
      invariant untagged == Tagged("", tagOf, all[..i])
    {
      assert all[..i + 1][..i] == all[..i];
      var tag := tagOf(all[i]);
      if view != "" && tag == view {
        tagged := tagged + [all[i]];
      } else if tag == "" {
        untagged := untagged + [all[i]];
      }
    }
    assert all[..|all|] == all;
    picked := if |tagged| > 0 then tagged else untagged;
  }

  function AddressTag(): Address -> string { (a: Address) => a.view }

  function RecordTag(): Record -> string { (r: Record) => r.view }

  // ----- the rule, name by name -----

  function AddressRRs(text: AddrText, name: string, addrs: seq<Address>): (r: seq<RR>)
    ensures |r| == |addrs|
  {
    seq(|addrs|, i requires 0 <= i < |addrs| => RR(name, AddrType(text, addrs[i].text), addrs[i].text))
  }

  predicate Routes(svc: Service) { svc.routed && svc.proxy != "" }

  function PickedAddresses(svc: Service, view: string): seq<Address> {
    Pick(view, AddressTag(), svc.addresses)
  }

  function Answering(svc: Service, view: string): seq<Address> {
    if Routes(svc) then [Address(svc.proxy, "")] else PickedAddresses(svc, view)
  }

  predicate AliasTo(aliases: seq<string>, zone: string, name: string) {
    exists a :: a in aliases && name == Qualify(a, zone)
  }

  predicate ClaimsName(svc: Service, view: string, zone: string, name: string) {
    PickedAddresses(svc, view) != [] && (name == Qualify(svc.name, zone) || AliasTo(svc.aliases, zone, name))
  }

  predicate ClaimsKey(text: AddrText, zones: seq<Prefix>, svc: Service, view: string, key: string) {
    exists a :: a in PickedAddresses(svc, view) && DerivedKey(text, zones, a.text) == Some(key)
  }

  // The last lease of that name.
  function LeaseAnswer(text: AddrText, leases: seq<Lease>, zone: string, name: string): seq<RR> {
    if leases == [] then []
    else
      var l := leases[|leases| - 1];
      if Qualify(l.hostname, zone) == name then [RR(name, AddrType(text, l.address), l.address)]
      else LeaseAnswer(text, leases[..|leases| - 1], zone, name)
  }

  // The last service claiming that name, or else the leases.
  function ServiceAnswer(text: AddrText, leases: seq<Lease>, svcs: seq<Service>, view: string, zone: string,
                         name: string): seq<RR> {
    if svcs == [] then LeaseAnswer(text, leases, zone, name)
    else
      var svc := svcs[|svcs| - 1];
      if ClaimsName(svc, view, zone, name) then AddressRRs(text, name, Answering(svc, view))
      else ServiceAnswer(text, leases, svcs[..|svcs| - 1], view, zone, name)
  }

  // Every manual record of that name, in order.
  function ManualAnswer(records: seq<Record>, name: string): seq<RR> {
    if records == [] then []
    else
      var r := records[|records| - 1];
      var rest := ManualAnswer(records[..|records| - 1], name);
      if r.kind != "PTR" && Lower(r.name) == name then rest + [RR(name, r.kind, Lower(r.value))] else rest
  }

  // What a name answers: its manual records if there are any, else the last service
  // claiming it, else the last lease. records are the picked ones.
  function Forward(text: AddrText, leases: seq<Lease>, svcs: seq<Service>, records: seq<Record>, view: string,
                   zone: string, name: string): seq<RR> {
    if ManualAnswer(records, name) != [] then ManualAnswer(records, name)
    else ServiceAnswer(text, leases, svcs, view, zone, name)
  }

  function LeaseTarget(text: AddrText, zones: seq<Prefix>, leases: seq<Lease>, zone: string,
                       key: string): Option<string> {
    if leases == [] then None
    else
      var l := leases[|leases| - 1];
      if DerivedKey(text, zones, l.address) == Some(key) then Some(Qualify(l.hostname, zone))
      else LeaseTarget(text, zones, leases[..|leases| - 1], zone, key)
  }

  function ServiceTarget(text: AddrText, zones: seq<Prefix>, leases: seq<Lease>, svcs: seq<Service>, view: string,
                         zone: string, key: string): Option<string> {
    if svcs == [] then LeaseTarget(text, zones, leases, zone, key)
    else
      var svc := svcs[|svcs| - 1];
      if ClaimsKey(text, zones, svc, view, key) then Some(Qualify(svc.name, zone))
      else ServiceTarget(text, zones, leases, svcs[..|svcs| - 1], view, zone, key)
  }

  // What a reverse key points at: the last PTR record, else the last service with
  // the address, else the last lease of it.
  function Reverse(text: AddrText, zones: seq<Prefix>, leases: seq<Lease>, svcs: seq<Service>, records: seq<Record>,
                   view: string, zone: string, key: string): Option<string> {
    if records == [] then ServiceTarget(text, zones, leases, svcs, view, zone, key)
    else
      var r := records[|records| - 1];
      if r.kind == "PTR" && Lower(r.name) == key then Some(Lower(r.value))
      else Reverse(text, zones, leases, svcs, records[..|records| - 1], view, zone, key)
  }

  // A CNAME stands alone at its name.
  predicate Coexists(rrs: seq<RR>) {
    (exists rr :: rr in rrs && rr.kind == "CNAME") ==> |rrs| == 1
  }

  // ----- the layered build -----

  ghost predicate HoldsForward(fwd: map<string, seq<RR>>, text: AddrText, leases: seq<Lease>, svcs: seq<Service>,
                               records: seq<Record>, view: string, zone: string) {
    forall n :: (if n in fwd then fwd[n] else []) == Forward(text, leases, svcs, records, view, zone, n)
  }

  ghost predicate HoldsReverse(rev: map<string, string>, text: AddrText, zones: seq<Prefix>, leases: seq<Lease>,
                               svcs: seq<Service>, records: seq<Record>, view: string, zone: string) {
    forall k :: (if k in rev then Some(rev[k]) else None) == Reverse(text, zones, leases, svcs, records, view, zone, k)
  }

  method LeaseLayer(text: AddrText, zones: seq<Prefix>, leases: seq<Lease>, ghost view: string, zone: string)
    returns (fwd: map<string, seq<RR>>, rev: map<string, string>)
    ensures HoldsForward(fwd, text, leases, [], [], view, zone)
    ensures HoldsReverse(rev, text, zones, leases, [], [], view, zone)
  {
    fwd, rev := map[], map[];
    for i := 0 to |leases|
      invariant HoldsForward(fwd, text, leases[..i], [], [], view, zone)
      invariant HoldsReverse(rev, text, zones, leases[..i], [], [], view, zone)
    {
      assert leases[..i + 1][..i] == leases[..i];
      var l := leases[i];
      var name := Qualify(l.hostname, zone);
      fwd := fwd[name := [RR(name, AddrType(text, l.address), l.address)]];
      var addr := text(l.address);
      if addr != NoAddr && InZones(addr, zones) {
        rev := rev[ArpaName(addr) := name];
      }
    }
    assert leases[..|leases|] == leases;
  }

  method WriteNames(text: AddrText, fwdBefore: map<string, seq<RR>>, names: seq<string>, answer: seq<Address>)
    returns (fwd: map<string, seq<RR>>)
    ensures forall n :: n in names ==> n in fwd && fwd[n] == AddressRRs(text, n, answer)
    ensures forall n :: n !in names ==> (n in fwd <==> n in fwdBefore) && (n in fwd ==> fwd[n] == fwdBefore[n])
  {
    fwd := fwdBefore;
    for i := 0 to |names|
      invariant forall n :: n in names[..i] ==> n in fwd && fwd[n] == AddressRRs(text, n, answer)
      invariant forall n :: n !in names[..i] ==> (n in fwd <==> n in fwdBefore) && (n in fwd ==> fwd[n] == fwdBefore[n])
    {
      assert names[..i + 1] == names[..i] + [names[i]];
      var rrs: seq<RR> := [];
      for j := 0 to |answer|
        invariant rrs == AddressRRs(text, names[i], answer)[..j]
      {
        rrs := rrs + [RR(names[i], AddrType(text, answer[j].text), answer[j].text)];
      }
      fwd := fwd[names[i] := rrs];
    }
    assert names[..|names|] == names;
  }

  method WriteKeys(text: AddrText, zones: seq<Prefix>, revBefore: map<string, string>, addrs: seq<Address>,
                   primary: string)
    returns (rev: map<string, string>)
    ensures forall k :: (exists a :: a in addrs && DerivedKey(text, zones, a.text) == Some(k)) ==>
      k in rev && rev[k] == primary
    ensures forall k :: !(exists a :: a in addrs && DerivedKey(text, zones, a.text) == Some(k)) ==>
      (k in rev <==> k in revBefore) && (k in rev ==> rev[k] == revBefore[k])
  {
    rev := revBefore;
    for i := 0 to |addrs|
      invariant forall k :: (exists a :: a in addrs[..i] && DerivedKey(text, zones, a.text) == Some(k)) ==>
        k in rev && rev[k] == primary
      invariant forall k :: !(exists a :: a in addrs[..i] && DerivedKey(text, zones, a.text) == Some(k)) ==>
        (k in rev <==> k in revBefore) && (k in rev ==> rev[k] == revBefore[k])
    {
      assert addrs[..i + 1] == addrs[..i] + [addrs[i]];
      var addr := text(addrs[i].text);
      if addr != NoAddr && InZones(addr, zones) {
        rev := rev[ArpaName(addr) := primary];
      }
    }
    assert addrs[..|addrs|] == addrs;
  }

  method ServiceLayer(text: AddrText, zones: seq<Prefix>, ghost leases: seq<Lease>, svcs: seq<Service>, view: string,
                      zone: string,
                      fwdBefore: map<string, seq<RR>>, revBefore: map<string, string>)
    returns (fwd: map<string, seq<RR>>, rev: map<string, string>)
    requires HoldsForward(fwdBefore, text, leases, [], [], view, zone)
    requires HoldsReverse(revBefore, text, zones, leases, [], [], view, zone)
    ensures HoldsForward(fwd, text, leases, svcs, [], view, zone)
    ensures HoldsReverse(rev, text, zones, leases, svcs, [], view, zone)
  {
    fwd, rev := fwdBefore, revBefore;
    for i := 0 to |svcs|
      invariant HoldsForward(fwd, text, leases, svcs[..i], [], view, zone)
      invariant HoldsReverse(rev, text, zones, leases, svcs[..i], [], view, zone)
    {
      assert svcs[..i + 1][..i] == svcs[..i];
      fwd, rev := AddService(text, zones, leases, svcs[..i], svcs[i], view, zone, fwd, rev);
      assert svcs[..i] + [svcs[i]] == svcs[..i + 1];
    }
    assert svcs[..|svcs|] == svcs;
  }

  method AddService(text: AddrText, zones: seq<Prefix>, ghost leases: seq<Lease>, ghost done: seq<Service>,
                    svc: Service, view: string, zone: string,
                    fwdBefore: map<string, seq<RR>>, revBefore: map<string, string>)
    returns (fwd: map<string, seq<RR>>, rev: map<string, string>)
    requires HoldsForward(fwdBefore, text, leases, done, [], view, zone)
    requires HoldsReverse(revBefore, text, zones, leases, done, [], view, zone)
    ensures HoldsForward(fwd, text, leases, done + [svc], [], view, zone)
    ensures HoldsReverse(rev, text, zones, leases, done + [svc], [], view, zone)
  {
    assert (done + [svc])[..|done|] == done;
    var addrs := PickLoop(view, AddressTag(), svc.addresses);
    if |addrs| == 0 {
      return fwdBefore, revBefore;
    }
    var primary := Qualify(svc.name, zone);
    var answer := addrs;
    if svc.routed && svc.proxy != "" {
      answer := [Address(svc.proxy, "")];
    }
    var names := NamesOf(svc, zone);
    fwd := WriteNames(text, fwdBefore, names, answer);
    rev := WriteKeys(text, zones, revBefore, addrs, primary);
  }

  method NamesOf(svc: Service, zone: string) returns (names: seq<string>)
    ensures forall n :: n in names <==>
      n == Qualify(svc.name, zone) || exists a :: a in svc.aliases && n == Qualify(a, zone)
  {
    names := [Qualify(svc.name, zone)];
    for i := 0 to |svc.aliases|
      invariant forall n :: n in names <==>
        n == Qualify(svc.name, zone) || exists a :: a in svc.aliases[..i] && n == Qualify(a, zone)
    {
      assert svc.aliases[..i + 1] == svc.aliases[..i] + [svc.aliases[i]];
      names := names + [Qualify(svc.aliases[i], zone)];
    }
    assert svc.aliases[..|svc.aliases|] == svc.aliases;
  }

  lemma PTRLayered(text: AddrText, zones: seq<Prefix>, leases: seq<Lease>, svcs: seq<Service>, done: seq<Record>,
                   r: Record,
                   view: string, zone: string, fwd: map<string, seq<RR>>, rev: map<string, string>)
    requires r.kind == "PTR"
    requires HoldsForward(fwd, text, leases, svcs, done, view, zone)
      && HoldsReverse(rev, text, zones, leases, svcs, done, view, zone)
    ensures HoldsForward(fwd, text, leases, svcs, done + [r], view, zone)
    ensures HoldsReverse(rev[Lower(r.name) := Lower(r.value)], text, zones, leases, svcs, done + [r], view, zone)
    ensures forall n :: ManualAnswer(done + [r], n) == ManualAnswer(done, n)
  {
    assert (done + [r])[..|done|] == done;
  }

  lemma OtherKeepsReverse(text: AddrText, zones: seq<Prefix>, leases: seq<Lease>, svcs: seq<Service>, done: seq<Record>,
                          r: Record,
                          view: string, zone: string, rev: map<string, string>)
    requires r.kind != "PTR" && HoldsReverse(rev, text, zones, leases, svcs, done, view, zone)
    ensures HoldsReverse(rev, text, zones, leases, svcs, done + [r], view, zone)
  {
    assert (done + [r])[..|done|] == done;
  }

  method ManualLayer(text: AddrText, zones: seq<Prefix>, ghost leases: seq<Lease>, ghost svcs: seq<Service>,
                     records: seq<Record>,
                     ghost view: string, ghost zone: string, fwdBefore: map<string, seq<RR>>,
                       revBefore: map<string, string>)
    returns (fwd: map<string, seq<RR>>, rev: map<string, string>)
    requires HoldsForward(fwdBefore, text, leases, svcs, [], view, zone)
    requires HoldsReverse(revBefore, text, zones, leases, svcs, [], view, zone)
    ensures HoldsForward(fwd, text, leases, svcs, records, view, zone)
    ensures HoldsReverse(rev, text, zones, leases, svcs, records, view, zone)
  {
    fwd, rev := fwdBefore, revBefore;
    var claimed: set<string> := {};
    for i := 0 to |records|
      invariant HoldsForward(fwd, text, leases, svcs, records[..i], view, zone)
      invariant HoldsReverse(rev, text, zones, leases, svcs, records[..i], view, zone)
      invariant forall n :: n in claimed <==> ManualAnswer(records[..i], n) != []
    {
      var r := records[i];
      var name := Lower(r.name);
      assert records[..i] + [r] == records[..i + 1];
      if r.kind == "PTR" {
        PTRLayered(text, zones, leases, svcs, records[..i], r, view, zone, fwd, rev);
        rev := rev[name := Lower(r.value)];
      } else {
        OtherKeepsReverse(text, zones, leases, svcs, records[..i], r, view, zone, rev);
        fwd, claimed := AddManual(text, leases, svcs, records[..i], r, view, zone, fwd, claimed);
      }
    }
    assert records[..|records|] == records;
  }

  // The first manual record of a name displaces what is there; later ones join it.
  method AddManual(ghost text: AddrText, ghost leases: seq<Lease>, ghost svcs: seq<Service>, ghost done: seq<Record>,
                   r: Record,
                   ghost view: string, ghost zone: string, fwdBefore: map<string, seq<RR>>, claimedBefore: set<string>)
    returns (fwd: map<string, seq<RR>>, claimed: set<string>)
    requires r.kind != "PTR" && HoldsForward(fwdBefore, text, leases, svcs, done, view, zone)
    requires forall n :: n in claimedBefore <==> ManualAnswer(done, n) != []
    ensures HoldsForward(fwd, text, leases, svcs, done + [r], view, zone)
    ensures forall n :: n in claimed <==> ManualAnswer(done + [r], n) != []
  {
    assert (done + [r])[..|done|] == done;
    var name := Lower(r.name);
    var rr := RR(name, r.kind, Lower(r.value));
    fwd, claimed := fwdBefore, claimedBefore;
    if name !in claimed {
      claimed := claimed + {name};
      fwd := fwd[name := [rr]];
    } else {
      fwd := fwd[name := (if name in fwd then fwd[name] else []) + [rr]];
    }
  }

  // The check at the end: no CNAME beside anything else.
  method CheckCoexistence(fwd: map<string, seq<RR>>) returns (bad: Option<string>)
    ensures bad.None? ==> forall n :: n in fwd ==> Coexists(fwd[n])
    ensures bad.Some? ==> bad.value in fwd && !Coexists(fwd[bad.value])
  {
    var rest := fwd.Keys;
    while rest != {}
      invariant rest <= fwd.Keys
      invariant forall n :: n in fwd && n !in rest ==> Coexists(fwd[n])
      decreases rest
    {
      var n :| n in rest;
      rest := rest - {n};
      var hasCNAME, hasAddr := false, false;
      for i := 0 to |fwd[n]|
        invariant hasCNAME <==> exists rr :: rr in fwd[n][..i] && rr.kind == "CNAME"
        invariant hasAddr <==> exists rr :: rr in fwd[n][..i] && rr.kind != "CNAME"
      {
        assert fwd[n][..i + 1] == fwd[n][..i] + [fwd[n][i]];
        if fwd[n][i].kind == "CNAME" {
          hasCNAME := true;
        } else {
          hasAddr := true;
        }
      }
      assert fwd[n][..|fwd[n]|] == fwd[n];
      if hasCNAME && (hasAddr || |fwd[n]| > 1) {
        return Some(n);
      }
    }
    bad := None;
  }

  // ----- the whole view -----

  function PickedRecords(input: Input, view: string): seq<Record> {
    Pick(view, RecordTag(), input.records)
  }

  // What the view says of a name and of a reverse key.
  function Answer(text: AddrText, input: Input, view: string, zone: string, name: string): seq<RR> {
    Forward(text, input.leases, input.services, PickedRecords(input, view), view, zone, name)
  }

  function Target(text: AddrText, input: Input, view: string, zone: string, key: string): Option<string> {
    Reverse(text, input.reverseZones, input.leases, input.services, PickedRecords(input, view), view, zone, key)
  }

  // The index holds exactly what the rule says, name by name and key by key.
  ghost predicate Follows(idx: Index, text: AddrText, input: Input, view: string, zone: string) {
    && (forall n :: (if n in idx.forward then idx.forward[n] else []) == Answer(text, input, view, zone, n))
    && (forall k :: (if k in idx.reverse then Some(idx.reverse[k]) else None) == Target(text, input, view, zone, k))
  }

  // A view is accepted exactly when every name it answers keeps CNAMEs alone.
  ghost predicate Accepts(text: AddrText, input: Input, view: string, zone: string) {
    forall n :: Coexists(Answer(text, input, view, zone, n))
  }

  method BuildIndex(text: AddrText, input: Input, view: string, zone: string) returns (r: Result<Index, string>)
    ensures r.Ok? <==> Accepts(text, input, view, zone)
    ensures r.Ok? ==> Follows(r.value, text, input, view, zone)
    ensures r.Err? ==> !Coexists(Answer(text, input, view, zone, r.error))
  {
    var fwd, rev := LeaseLayer(text, input.reverseZones, input.leases, view, zone);
    fwd, rev := ServiceLayer(text, input.reverseZones, input.leases, input.services, view, zone, fwd, rev);
    var records := PickLoop(view, RecordTag(), input.records);
    fwd, rev := ManualLayer(text, input.reverseZones, input.leases, input.services, records, view, zone, fwd, rev);
    var bad := CheckCoexistence(fwd);
    assert forall n :: (if n in fwd then fwd[n] else []) == Answer(text, input, view, zone, n);
    if bad.Some? {
      return Err(bad.value);
    }
    forall n ensures Coexists(Answer(text, input, view, zone, n)) {
      if n !in fwd { assert Answer(text, input, view, zone, n) == []; }
    }
    r := Ok(Index(fwd, rev));
  }

  // ----- untagged means everywhere, as far as it goes -----

  lemma {:induction false} TaggedHas<T>(tag: string, tagOf: T -> string, all: seq<T>, t: T)
    ensures t in Tagged(tag, tagOf, all) <==> t in all && tagOf(t) == tag
  {
    if all != [] {
      TaggedHas(tag, tagOf, all[..|all| - 1], t);
      assert all == all[..|all| - 1] + [all[|all| - 1]];
    }
  }

  // An untagged record counts in a named view exactly when no record of the whole list,
  // whatever its name, is tagged with that view.
  lemma UntaggedCountsExactly(view: string, records: seq<Record>, r: Record)
    requires view != "" && r in records && r.view == ""
    ensures r in Pick(view, RecordTag(), records) <==> forall q :: q in records ==> q.view != view
  {
    TaggedHas("", RecordTag(), records, r);
    TaggedHas(view, RecordTag(), records, r);
    forall q | q in records ensures q in Tagged(view, RecordTag(), records) <==> q.view == view {
      TaggedHas(view, RecordTag(), records, q);
    }
    if Tagged(view, RecordTag(), records) != [] {
      var q := Tagged(view, RecordTag(), records)[0];
      TaggedHas(view, RecordTag(), records, q);
    }
  }

  lemma PickOfTwo(a: Record, b: Record)
    requires a.view == "" && b.view != ""
    ensures Pick("", RecordTag(), [a, b]) == [a] && Pick(b.view, RecordTag(), [a, b]) == [b]
  {
    assert [a, b][..|[a, b]| - 1] == [a] && [a][..|[a]| - 1] == [];
    assert Tagged("", RecordTag(), [a]) == [a] && Tagged(b.view, RecordTag(), [a]) == [];
  }

  lemma AnswerOfOne(r: Record, name: string)
    requires r.kind != "PTR"
    ensures ManualAnswer([r], name) == if Lower(r.name) == name then [RR(name, r.kind, Lower(r.value))] else []
  {
    assert [r][..|[r]| - 1] == [] && ManualAnswer([], name) == [];
  }

  // The input: two records of different names, one untagged and one for a view. The
  // untagged name answers everywhere but in that view, where it answers nothing.
  lemma UnrelatedTagHides(text: AddrText, zone: string, a: Record, b: Record)
    requires a.view == "" && b.view != "" && a.kind != "PTR" && b.kind != "PTR" && Lower(a.name) != Lower(b.name)
    ensures var input, name := Input([], [a, b], [], []), Lower(a.name);
      && Answer(text, input, "", zone, name) == [RR(name, a.kind, Lower(a.value))]
      && Answer(text, input, b.view, zone, name) == []
  {
    PickOfTwo(a, b);
    AnswerOfOne(a, Lower(a.name));
    AnswerOfOne(b, Lower(a.name));
  }
}
