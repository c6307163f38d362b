/** The precedence rule of a view by position: which entries of the record, service and
    lease lists answer a name, and which one a reverse key points at. */
module NameRules {
  import opened Wrappers
  import opened Net
  import opened Names
  import opened Arpa
  import opened Sequences
  import opened ZoneIndex

  // ----- positions in a list -----

  // These positions of these wanted ones, in order and with none left out.
  ghost predicate Lists(at: seq<nat>, n: nat, wanted: set<nat>) {
    Ascending(at, n) && forall i :: 0 <= i < n ==> (i in at <==> i in wanted)
  }

  lemma FirstIsWanted(at: seq<nat>, n: nat, wanted: set<nat>)
    requires Lists(at, n, wanted) && at != []
    ensures at[0] in wanted
  {
    assert at[0] in at;
  }

  lemma NoneListed(at: seq<nat>, n: nat)
    requires Lists(at, n, {})
    ensures at == []
  {
    if at != [] { FirstIsWanted(at, n, {}); }
  }

  function IsTagged<T>(tag: string, tagOf: T -> string): T -> bool { t => tagOf(t) == tag }

  lemma {:induction false} TaggedByPosition<T>(tag: string, tagOf: T -> string, all: seq<T>) returns (at: seq<nat>)
    ensures Selects(at, all, IsTagged(tag, tagOf), Itself(), Tagged(tag, tagOf, all))
  {
    hide Selects;
    at := [];
    if all == [] {
      SelectsNone(IsTagged(tag, tagOf), Itself<T>());
    } else {
      var n := |all| - 1;
      at := TaggedByPosition(tag, tagOf, all[..n]);
      Front(all);
      SelectsMore(at, all[..n], IsTagged(tag, tagOf), Itself(), Tagged(tag, tagOf, all[..n]), all[n]);
      if tagOf(all[n]) == tag { at := at + [n]; }
    }
  }

  // The tag that counts in a view: its own where some entry has it, else none.
  ghost function TagFor<T>(view: string, tagOf: T -> string, all: seq<T>): string {
    if exists t :: t in all && tagOf(t) == view then view else ""
  }

  lemma PickedByPosition<T>(view: string, tagOf: T -> string, all: seq<T>) returns (at: seq<nat>)
    ensures Selects(at, all, IsTagged(TagFor(view, tagOf, all), tagOf), Itself(), Pick(view, tagOf, all))
  {
    at := TaggedByPosition(view, tagOf, all);
    if at == [] {
      forall t | t in all ensures tagOf(t) != view {
        var i :| 0 <= i < |all| && all[i] == t;
        assert i !in at;
      }
      at := TaggedByPosition("", tagOf, all);
    } else {
      assert all[at[0]] in all && at[0] in at;
    }
  }

  // ----- manual records -----

  ghost function TagOfRecords(input: Input, view: string): string {
    TagFor(view, RecordTag(), input.records)
  }

  // The manual records of a name that count in the view.
  ghost function Manual(input: Input, view: string, name: string): set<nat> {
    set i: nat | i < |input.records| && input.records[i].view == TagOfRecords(input, view)
      && input.records[i].kind != "PTR" && Lower(input.records[i].name) == name
  }

  function IsOfName(name: string): Record -> bool { (r: Record) => r.kind != "PTR" && Lower(r.name) == name }

  function AnswersAs(name: string): Record -> RR { (r: Record) => RR(name, r.kind, Lower(r.value)) }

  lemma {:induction false} ManualByPosition(records: seq<Record>, name: string) returns (at: seq<nat>)
    ensures Selects(at, records, IsOfName(name), AnswersAs(name), ManualAnswer(records, name))
  {
    hide Selects, Lower;
    at := [];
    if records == [] {
      SelectsNone(IsOfName(name), AnswersAs(name));
    } else {
      var n := |records| - 1;
      at := ManualByPosition(records[..n], name);
      Front(records);
      SelectsMore(at, records[..n], IsOfName(name), AnswersAs(name), ManualAnswer(records[..n], name), records[n]);
      if IsOfName(name)(records[n]) { at := at + [n]; }
    }
  }

  // The answer is one record per manual record of the name that counts, in order, if
  // there are any; and the services and leases are asked only if there are none.
  lemma ManualRecordsAnswer(text: AddrText, input: Input, view: string, zone: string, name: string)
    returns (at: seq<nat>)
    ensures Lists(at, |input.records|, Manual(input, view, name))
    ensures at != [] ==> |Answer(text, input, view, zone, name)| == |at|
    ensures at != [] ==> forall k :: 0 <= k < |at| ==>
      Answer(text, input, view, zone, name)[k] ==
        RR(name, input.records[at[k]].kind, Lower(input.records[at[k]].value))
    ensures at == [] ==>
      Answer(text, input, view, zone, name) == ServiceAnswer(text, input.leases, input.services, view, zone, name)
  {
    var picked := PickedRecords(input, view);
    var outer := PickedByPosition(view, RecordTag(), input.records);
    var inner := ManualByPosition(picked, name);
    at := SelectsTwice(outer, input.records, IsTagged(TagOfRecords(input, view), RecordTag()), picked, inner,
                       IsOfName(name), AnswersAs(name), ManualAnswer(picked, name));
  }

  // ----- services -----

  // An address of the service that counts in the view.
  predicate Has(svc: Service, view: string) {
    exists a :: a in svc.addresses && (a.view == view || a.view == "")
  }

  // The service answers for the name: it has such an address, and the name is its own or
  // an alias of it.
  predicate Serves(svc: Service, view: string, zone: string, name: string) {
    && Has(svc, view)
    && (name == Qualify(svc.name, zone) || exists a :: a in svc.aliases && name == Qualify(a, zone))
  }

  lemma HasExactly(svc: Service, view: string)
    ensures PickedAddresses(svc, view) != [] <==> Has(svc, view)
  {
    var at := PickedByPosition(view, AddressTag(), svc.addresses);
    var tag := TagFor(view, AddressTag(), svc.addresses);
    if Has(svc, view) {
      var a :| a in svc.addresses && (a.view == view || a.view == "");
      var b :| b in svc.addresses && b.view == tag;
      var i :| 0 <= i < |svc.addresses| && svc.addresses[i] == b;
      assert i in at;
    }
    if at != [] { assert svc.addresses[at[0]] in svc.addresses && at[0] in at; }
  }

  lemma ServesExactly(svc: Service, view: string, zone: string, name: string)
    ensures ClaimsName(svc, view, zone, name) <==> Serves(svc, view, zone, name)
  {
    HasExactly(svc, view);
  }

  lemma {:induction false} LastServiceAnswers(text: AddrText, leases: seq<Lease>, svcs: seq<Service>, view: string,
                                              zone: string, name: string, i: nat)
    requires i < |svcs| && Serves(svcs[i], view, zone, name)
    requires forall j :: i < j < |svcs| ==> !Serves(svcs[j], view, zone, name)
    ensures ServiceAnswer(text, leases, svcs, view, zone, name) == AddressRRs(text, name, Answering(svcs[i], view))
  {
    hide Serves, ClaimsName, AddressRRs, Answering;
    ServesExactly(svcs[|svcs| - 1], view, zone, name);
    if i < |svcs| - 1 {
      LastServiceAnswers(text, leases, svcs[..|svcs| - 1], view, zone, name, i);
    }
  }

  lemma {:induction false} NoServiceAnswers(text: AddrText, leases: seq<Lease>, svcs: seq<Service>, view: string,
                                            zone: string, name: string)
    requires forall j :: 0 <= j < |svcs| ==> !Serves(svcs[j], view, zone, name)
    ensures ServiceAnswer(text, leases, svcs, view, zone, name) == LeaseAnswer(text, leases, zone, name)
  {
    hide Serves, ClaimsName, AddressRRs, Answering;
    if svcs != [] {
      ServesExactly(svcs[|svcs| - 1], view, zone, name);
      NoServiceAnswers(text, leases, svcs[..|svcs| - 1], view, zone, name);
    }
  }

  // An address text as a record: A where it reads as IPv4, AAAA otherwise.
  predicate IsAddressRecord(text: AddrText, rr: RR, name: string, s: string) {
    rr.name == name && rr.value == s && (rr.kind == "A" <==> text(s).V4?) && (rr.kind == "AAAA" <==> !text(s).V4?)
  }

  // With no manual record, the last service that answers for the name gives its proxy
  // where it is routed through one, and otherwise its addresses for the view in order.
  lemma ServiceAnswers(text: AddrText, input: Input, view: string, zone: string, name: string, i: nat)
    returns (at: seq<nat>)
    requires Manual(input, view, name) == {}
    requires i < |input.services| && Serves(input.services[i], view, zone, name)
    requires forall j :: i < j < |input.services| ==> !Serves(input.services[j], view, zone, name)
    ensures var svc, answer := input.services[i], Answer(text, input, view, zone, name);
      var tag := TagFor(view, AddressTag(), svc.addresses);
      if svc.routed && svc.proxy != "" then |answer| == 1 && IsAddressRecord(text, answer[0], name, svc.proxy)
      else
        && Lists(at, |svc.addresses|, set i: nat | i < |svc.addresses| && svc.addresses[i].view == tag)
        && |answer| == |at|
        && forall k :: 0 <= k < |at| ==> IsAddressRecord(text, answer[k], name, svc.addresses[at[k]].text)
  {
    var none := ManualRecordsAnswer(text, input, view, zone, name);
    NoneListed(none, |input.records|);
    hide Serves, Manual, Lists, Qualify;
    LastServiceAnswers(text, input.leases, input.services, view, zone, name, i);
    var svc := input.services[i];
    at := PickedByPosition(view, AddressTag(), svc.addresses);
  }

  // ----- leases -----

  predicate LastLeaseOf(leases: seq<Lease>, zone: string, name: string, i: int) {
    && 0 <= i < |leases| && Qualify(leases[i].hostname, zone) == name
    && forall j :: i < j < |leases| ==> Qualify(leases[j].hostname, zone) != name
  }

  lemma {:induction false} LastLeaseAnswers(text: AddrText, leases: seq<Lease>, zone: string, name: string, i: nat)
    requires LastLeaseOf(leases, zone, name, i)
    ensures LeaseAnswer(text, leases, zone, name) ==
      [RR(name, AddrType(text, leases[i].address), leases[i].address)]
  {
    hide Qualify;
    var n := |leases| - 1;
    if i < n {
      assert Qualify(leases[n].hostname, zone) != name;
      assert LastLeaseOf(leases[..n], zone, name, i) by {
        forall j | i < j < n ensures Qualify(leases[..n][j].hostname, zone) != name {
          assert leases[..n][j] == leases[j];
        }
      }
      LastLeaseAnswers(text, leases[..n], zone, name, i);
    }
  }

  lemma {:induction false} NoLeaseAnswers(text: AddrText, leases: seq<Lease>, zone: string, name: string)
    requires forall j :: 0 <= j < |leases| ==> Qualify(leases[j].hostname, zone) != name
    ensures LeaseAnswer(text, leases, zone, name) == []
  {
    hide Qualify;
    if leases != [] {
      NoLeaseAnswers(text, leases[..|leases| - 1], zone, name);
    }
  }

  // With no service either, the last lease of the name gives its address, and a name with
  // no lease has no answer.
  lemma LeasesAnswer(text: AddrText, input: Input, view: string, zone: string, name: string)
    requires Manual(input, view, name) == {}
    requires forall j :: 0 <= j < |input.services| ==> !Serves(input.services[j], view, zone, name)
    ensures var answer := Answer(text, input, view, zone, name);
      && (forall i :: LastLeaseOf(input.leases, zone, name, i) ==>
            |answer| == 1 && IsAddressRecord(text, answer[0], name, input.leases[i].address))
      && ((forall j :: 0 <= j < |input.leases| ==> Qualify(input.leases[j].hostname, zone) != name) ==> answer == [])
  {
    var none := ManualRecordsAnswer(text, input, view, zone, name);
    NoneListed(none, |input.records|);
    NoServiceAnswers(text, input.leases, input.services, view, zone, name);
    forall i | LastLeaseOf(input.leases, zone, name, i)
      ensures var answer := Answer(text, input, view, zone, name);
        |answer| == 1 && IsAddressRecord(text, answer[0], name, input.leases[i].address)
    {
      LastLeaseAnswers(text, input.leases, zone, name, i);
    }
    if forall j :: 0 <= j < |input.leases| ==> Qualify(input.leases[j].hostname, zone) != name {
      NoLeaseAnswers(text, input.leases, zone, name);
    }
  }

  // ----- reverse keys -----

  // The address text lies in a reverse zone and derives the key.
  predicate Derives(text: AddrText, zones: seq<Prefix>, s: string, key: string) {
    text(s) != NoAddr && ArpaName(text(s)) == key && exists z :: z in zones && Contains(z, text(s))
  }

  // An address of the service that counts in the view derives the key.
  ghost predicate Owns(text: AddrText, zones: seq<Prefix>, svc: Service, view: string, key: string) {
    exists i :: 0 <= i < |svc.addresses| && svc.addresses[i].view == TagFor(view, AddressTag(), svc.addresses)
      && Derives(text, zones, svc.addresses[i].text, key)
  }

  // A PTR record at the key that counts in the view.
  ghost predicate PointsAway(input: Input, view: string, key: string, i: nat) {
    && i < |input.records| && input.records[i].view == TagOfRecords(input, view)
    && input.records[i].kind == "PTR" && Lower(input.records[i].name) == key
  }

  lemma OwnsExactly(text: AddrText, zones: seq<Prefix>, svc: Service, view: string, key: string)
    ensures ClaimsKey(text, zones, svc, view, key) <==> Owns(text, zones, svc, view, key)
  {
    var at := PickedByPosition(view, AddressTag(), svc.addresses);
    var picked := PickedAddresses(svc, view);
    if ClaimsKey(text, zones, svc, view, key) {
      var a :| a in picked && DerivedKey(text, zones, a.text) == Some(key);
      var k :| 0 <= k < |picked| && picked[k] == a;
      assert at[k] in at && Derives(text, zones, svc.addresses[at[k]].text, key);
    }
    if Owns(text, zones, svc, view, key) {
      var i :| 0 <= i < |svc.addresses| && svc.addresses[i].view == TagFor(view, AddressTag(), svc.addresses)
        && Derives(text, zones, svc.addresses[i].text, key);
      assert i in at;
      var k :| 0 <= k < |at| && at[k] == i;
      assert picked[k] in picked;
    }
  }

  lemma {:induction false} LastServiceIsTarget(text: AddrText, zones: seq<Prefix>, leases: seq<Lease>,
                                               svcs: seq<Service>, view: string, zone: string, key: string, i: nat)
    requires i < |svcs| && Owns(text, zones, svcs[i], view, key)
    requires forall j :: i < j < |svcs| ==> !Owns(text, zones, svcs[j], view, key)
    ensures ServiceTarget(text, zones, leases, svcs, view, zone, key) == Some(Qualify(svcs[i].name, zone))
  {
    hide Owns, ClaimsKey, Qualify;
    OwnsExactly(text, zones, svcs[|svcs| - 1], view, key);
    if i < |svcs| - 1 {
      LastServiceIsTarget(text, zones, leases, svcs[..|svcs| - 1], view, zone, key, i);
    }
  }

  lemma {:induction false} NoServiceIsTarget(text: AddrText, zones: seq<Prefix>, leases: seq<Lease>,
                                             svcs: seq<Service>, view: string, zone: string, key: string)
    requires forall j :: 0 <= j < |svcs| ==> !Owns(text, zones, svcs[j], view, key)
    ensures ServiceTarget(text, zones, leases, svcs, view, zone, key) == LeaseTarget(text, zones, leases, zone, key)
  {
    hide Owns, ClaimsKey, Qualify;
    if svcs != [] {
      OwnsExactly(text, zones, svcs[|svcs| - 1], view, key);
      NoServiceIsTarget(text, zones, leases, svcs[..|svcs| - 1], view, zone, key);
    }
  }

  lemma {:induction false} LastLeaseIsTarget(text: AddrText, zones: seq<Prefix>, leases: seq<Lease>, zone: string,
                                             key: string, i: nat)
    requires i < |leases| && Derives(text, zones, leases[i].address, key)
    requires forall j :: i < j < |leases| ==> !Derives(text, zones, leases[j].address, key)
    ensures LeaseTarget(text, zones, leases, zone, key) == Some(Qualify(leases[i].hostname, zone))
  {
    if i < |leases| - 1 {
      LastLeaseIsTarget(text, zones, leases[..|leases| - 1], zone, key, i);
    }
  }

  lemma {:induction false} NoLeaseIsTarget(text: AddrText, zones: seq<Prefix>, leases: seq<Lease>, zone: string,
                                           key: string)
    requires forall j :: 0 <= j < |leases| ==> !Derives(text, zones, leases[j].address, key)
    ensures LeaseTarget(text, zones, leases, zone, key) == None
  {
    if leases != [] {
      NoLeaseIsTarget(text, zones, leases[..|leases| - 1], zone, key);
    }
  }

  lemma {:induction false} LastPTRIsTarget(text: AddrText, zones: seq<Prefix>, leases: seq<Lease>, svcs: seq<Service>,
                                           records: seq<Record>, view: string, zone: string, key: string, i: nat)
    requires i < |records| && records[i].kind == "PTR" && Lower(records[i].name) == key
    requires forall j :: i < j < |records| ==> !(records[j].kind == "PTR" && Lower(records[j].name) == key)
    ensures Reverse(text, zones, leases, svcs, records, view, zone, key) == Some(Lower(records[i].value))
  {
    hide Lower;
    if i < |records| - 1 {
      LastPTRIsTarget(text, zones, leases, svcs, records[..|records| - 1], view, zone, key, i);
    }
  }

  lemma {:induction false} NoPTRIsTarget(text: AddrText, zones: seq<Prefix>, leases: seq<Lease>, svcs: seq<Service>,
                                         records: seq<Record>, view: string, zone: string, key: string)
    requires forall j :: 0 <= j < |records| ==> !(records[j].kind == "PTR" && Lower(records[j].name) == key)
    ensures Reverse(text, zones, leases, svcs, records, view, zone, key) ==
      ServiceTarget(text, zones, leases, svcs, view, zone, key)
  {
    hide Lower;
    if records != [] {
      NoPTRIsTarget(text, zones, leases, svcs, records[..|records| - 1], view, zone, key);
    }
  }

  // A key points where the last PTR record at it that counts says.
  lemma PTRRecordIsTarget(text: AddrText, input: Input, view: string, zone: string, key: string, i: nat)
    requires PointsAway(input, view, key, i)
    requires forall j: nat :: j > i ==> !PointsAway(input, view, key, j)
    ensures Target(text, input, view, zone, key) == Some(Lower(input.records[i].value))
  {
    var at := PickedByPosition(view, RecordTag(), input.records);
    assert i in at;
    var k :| 0 <= k < |at| && at[k] == i;
    forall j | k < j < |at| ensures !PointsAway(input, view, key, at[j]) && at[j] in at { }
    LastPTRIsTarget(text, input.reverseZones, input.leases, input.services, PickedRecords(input, view), view, zone,
                    key, k);
  }

  lemma PTRsLeave(text: AddrText, input: Input, view: string, zone: string, key: string)
    requires forall j: nat :: !PointsAway(input, view, key, j)
    ensures Target(text, input, view, zone, key) ==
      ServiceTarget(text, input.reverseZones, input.leases, input.services, view, zone, key)
  {
    var at := PickedByPosition(view, RecordTag(), input.records);
    forall j | 0 <= j < |at| ensures !PointsAway(input, view, key, at[j]) && at[j] in at { }
    NoPTRIsTarget(text, input.reverseZones, input.leases, input.services, PickedRecords(input, view), view, zone, key);
  }

  // Else at the full name of the last service with an address that derives it.
  lemma ServiceIsTarget(text: AddrText, input: Input, view: string, zone: string, key: string, i: nat)
    requires forall j: nat :: !PointsAway(input, view, key, j)
    requires i < |input.services| && Owns(text, input.reverseZones, input.services[i], view, key)
    requires forall j :: i < j < |input.services| ==> !Owns(text, input.reverseZones, input.services[j], view, key)
    ensures Target(text, input, view, zone, key) == Some(Qualify(input.services[i].name, zone))
  {
    PTRsLeave(text, input, view, zone, key);
    LastServiceIsTarget(text, input.reverseZones, input.leases, input.services, view, zone, key, i);
  }

  // Else at that of the last lease whose address derives it, or nowhere.
  lemma LeaseIsTarget(text: AddrText, input: Input, view: string, zone: string, key: string)
    requires forall j: nat :: !PointsAway(input, view, key, j)
    requires forall j :: 0 <= j < |input.services| ==> !Owns(text, input.reverseZones, input.services[j], view, key)
    ensures match Target(text, input, view, zone, key)
      case Some(target) =>
        exists i :: LastDeriving(text, input, key, i) && target == Qualify(input.leases[i].hostname, zone)
      case None => forall j :: 0 <= j < |input.leases| ==>
        !Derives(text, input.reverseZones, input.leases[j].address, key)
  {
    PTRsLeave(text, input, view, zone, key);
    NoServiceIsTarget(text, input.reverseZones, input.leases, input.services, view, zone, key);
    if exists j :: 0 <= j < |input.leases| && Derives(text, input.reverseZones, input.leases[j].address, key) {
      var i := TheLastDeriving(text, input, key, |input.leases|);
      LastLeaseIsTarget(text, input.reverseZones, input.leases, zone, key, i);
    } else {
      NoLeaseIsTarget(text, input.reverseZones, input.leases, zone, key);
    }
  }

  predicate LastDeriving(text: AddrText, input: Input, key: string, i: int) {
    && 0 <= i < |input.leases| && Derives(text, input.reverseZones, input.leases[i].address, key)
    && forall j :: i < j < |input.leases| ==> !Derives(text, input.reverseZones, input.leases[j].address, key)
  }

  lemma {:induction false} TheLastDeriving(text: AddrText, input: Input, key: string, n: nat) returns (i: nat)
    requires n <= |input.leases|
    requires exists j :: 0 <= j < n && Derives(text, input.reverseZones, input.leases[j].address, key)
    requires forall j :: n <= j < |input.leases| ==> !Derives(text, input.reverseZones, input.leases[j].address, key)
    ensures LastDeriving(text, input, key, i)
  {
    hide Derives;
    i := n - 1;
    if !Derives(text, input.reverseZones, input.leases[i].address, key) {
      i := TheLastDeriving(text, input, key, n - 1);
    }
  }

  // ----- full names -----

  // A name ending in the zone, dot or no dot, is full already; any other has the zone put
  // after it. Case and one dot at the end never matter, and a full name stays as it is.
  lemma QualifyExactly(name: string, zone: string)
    requires zone != "" && zone[|zone| - 1] == '.' && Lower(zone) == zone && !EndsWith(name, ".")
    ensures Qualify(name, zone) ==
      if EndsWith(Lower(name) + ".", zone) then Lower(name) + "." else Lower(name) + "." + zone
    ensures Qualify(name + ".", zone) == Qualify(name, zone) && Qualify(Lower(name), zone) == Qualify(name, zone)
    ensures EndsWith(Qualify(name, zone), zone) && Qualify(Qualify(name, zone), zone) == Qualify(name, zone)
  {
    EndsWithOwn(name, ".");
    if name != "" {
      assert name[|name| - 1..] == [name[|name| - 1]];
      assert Lower(name)[|name| - 1..] == [LowerChar(name[|name| - 1])];
    }
    assert !EndsWith(Lower(name), ".");
    LowerTwice(name);
    QualifiedStays(name, zone);
  }

  lemma FullStays(full: string, zone: string)
    requires Lower(full) == full && EndsWith(full + ".", zone)
    ensures Qualify(full + ".", zone) == full + "."
  {
    EndsWithOwn(full, ".");
  }

  lemma QualifiedStays(name: string, zone: string)
    requires zone != "" && zone[|zone| - 1] == '.' && Lower(zone) == zone && !EndsWith(name, ".")
    ensures EndsWith(Qualify(name, zone), zone) && Qualify(Qualify(name, zone), zone) == Qualify(name, zone)
  {
    var full, stem := Lower(name), zone[..|zone| - 1];
    LowerTwice(name);
    if EndsWith(full + ".", zone) {
      FullStays(full, zone);
    } else {
      JoinedIsLower(full, stem);
      assert zone == stem + "." && full + "." + zone == (full + "." + stem) + ".";
      EndsWithOwn(full + ".", zone);
      FullStays(full + "." + stem, zone);
    }
  }

  lemma JoinedIsLower(a: string, b: string)
    requires Lower(a) == a && Lower(b + ".") == b + "."
    ensures Lower(a + "." + b) == a + "." + b
  {
    LowerConcat(a + ".", b);
    LowerConcat(a, ".");
    LowerConcat(b, ".");
    assert b == (b + ".")[..|b|] == Lower(b + ".")[..|b|] == Lower(b);
  }
}
