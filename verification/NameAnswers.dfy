/** What a question about a name of ours is answered with, over an accepted snapshot and in
    terms of what the precedence rule says of the name. Record types are numbered as in
    section 3.2.2 of RFC 1035 and section 2.1 of RFC 3596. */
module NameAnswers {
  import opened Wrappers
  import opened Net
  import opened Names
  import opened Sequences
  import opened ZoneIndex
  import opened ZoneSnapshot
  import opened Chasing
  import opened Authoritative
  import opened NameRules
  import Arpa
  import ReverseReads

  // ----- addresses -----

  // A record of this kind belongs in the answer: an A record for A and ANY, an AAAA
  // record for AAAA and ANY, and nothing else.
  predicate Wanted(kind: string, qtype: nat) {
    (kind == "A" && (qtype == 1 || qtype == 255)) || (kind == "AAAA" && (qtype == 28 || qtype == 255))
  }

  function IsWanted(qtype: nat): RR -> bool { (rr: RR) => Wanted(rr.kind, qtype) }

  function AsRecord(): RR -> Rec {
    (rr: RR) => if rr.kind == "A" then Addr4(rr.name, rr.value) else Addr6(rr.name, rr.value)
  }

  lemma {:induction false} ConvertedByPosition(rrs: seq<RR>, qtype: nat) returns (at: seq<nat>)
    ensures Selects(at, rrs, IsWanted(qtype), AsRecord(), Convert(rrs, qtype))
  {
    hide Selects;
    at := [];
    if rrs == [] {
      SelectsNone(IsWanted(qtype), AsRecord());
    } else {
      var n := |rrs| - 1;
      at := ConvertedByPosition(rrs[..n], qtype);
      Front(rrs);
      SelectsMore(at, rrs[..n], IsWanted(qtype), AsRecord(), Convert(rrs[..n], qtype), rrs[n]);
      if Wanted(rrs[n].kind, qtype) { at := at + [n]; }
    }
  }

  // The answer is one record for each of the rule's records wanted, in order.
  ghost predicate RecordsOf(answer: seq<Rec>, name: string, rrs: seq<RR>, at: seq<nat>, qtype: nat) {
    && Ascending(at, |rrs|) && |answer| == |at|
    && (forall i :: 0 <= i < |rrs| ==> (i in at <==> Wanted(rrs[i].kind, qtype)))
    && (forall k :: 0 <= k < |at| ==>
          answer[k] == if rrs[at[k]].kind == "A" then Addr4(name, rrs[at[k]].value) else Addr6(name, rrs[at[k]].value))
  }

  lemma ConvertedRecords(rrs: seq<RR>, name: string, qtype: nat) returns (at: seq<nat>)
    requires forall rr :: rr in rrs ==> rr.name == name
    ensures RecordsOf(Convert(rrs, qtype), name, rrs, at, qtype) && (at == [] <==> Convert(rrs, qtype) == [])
  {
    at := ConvertedByPosition(rrs, qtype);
  }

  // With no CNAME at the name the reply is what its records convert to.
  lemma PlainReply(scope: Scope, snap: Snapshot, view: string, qname: string, qtype: nat)
    requires Authoritative.Owns(scope, qname) && Lower(Fqdn(qname)) != scope.zone && qtype != 12
    requires forall rr :: rr in Lookup(snap, view, Lower(Fqdn(qname))) ==> rr.kind != "CNAME"
    ensures var rrs := Lookup(snap, view, Lower(Fqdn(qname)));
      var out := Convert(rrs, qtype);
      ReplyTo(scope, snap, view, qname, qtype) ==
        Some(Reply(rrs == [], out, if out == [] then [SOA(scope.zone)] else []))
  {
    hide Lookup, Fqdn, Lower, LowerChar, EndsWith, Authoritative.Owns;
    var rrs := Lookup(snap, view, Lower(Fqdn(qname)));
    if rrs != [] { assert rrs[0] in rrs; }
  }

  // The answer is one record for each of the addresses with that tag, of a family wanted,
  // in order.
  ghost predicate AddressesOf(answer: seq<Rec>, name: string, text: AddrText, addrs: seq<Address>, tag: string,
                              at: seq<nat>, qtype: nat) {
    && Ascending(at, |addrs|) && |answer| == |at|
    && (forall j :: 0 <= j < |addrs| ==>
          (j in at <==> addrs[j].view == tag && Wanted(if text(addrs[j].text).V4? then "A" else "AAAA", qtype)))
    && (forall k :: 0 <= k < |at| ==>
          answer[k] == if text(addrs[at[k]].text).V4? then Addr4(name, addrs[at[k]].text)
                       else Addr6(name, addrs[at[k]].text))
  }

  lemma AddressesThroughRecords(answer: seq<Rec>, name: string, text: AddrText, addrs: seq<Address>, tag: string,
                                outer: seq<nat>, rrs: seq<RR>, inner: seq<nat>, qtype: nat)
    requires RecordsOf(answer, name, rrs, inner, qtype) && |rrs| == |outer|
    requires Lists(outer, |addrs|, set i: nat | i < |addrs| && addrs[i].view == tag)
    requires forall k :: 0 <= k < |outer| ==> IsAddressRecord(text, rrs[k], name, addrs[outer[k]].text)
    ensures AddressesOf(answer, name, text, addrs, tag, Through(outer, inner), qtype)
  {
    var at := Through(outer, inner);
    forall j | 0 <= j < |addrs|
      ensures j in at <==> addrs[j].view == tag && Wanted(if text(addrs[j].text).V4? then "A" else "AAAA", qtype)
    {
      if j in outer {
        var k :| 0 <= k < |outer| && outer[k] == j;
        ThroughHas(outer, |addrs|, inner, k);
        assert IsAddressRecord(text, rrs[k], name, addrs[j].text);
      }
    }
  }

  // A name of ours other than the apex, where the rule gives records and no CNAME, is
  // answered with exactly one record for each of them of a kind asked for, in order, under
  // the name and with the value it has there. The SOA comes along exactly when that is none.
  lemma AddressesAreAnswered(scope: Scope, snap: Snapshot, text: AddrText, input: Input, names: seq<string>,
                             view: string, qname: string, qtype: nat)
    returns (at: seq<nat>)
    requires Built(snap, text, input, names) && Authoritative.Owns(scope, qname) && qtype != 12
    requires var name := Lower(Fqdn(qname));
      name != scope.zone && forall rr :: rr in Answer(text, input, Effective(names, view), snap.zone, name) ==>
        rr.kind != "CNAME"
    ensures var name := Lower(Fqdn(qname));
      var rrs := Answer(text, input, Effective(names, view), snap.zone, name);
      var reply := ReplyTo(scope, snap, view, qname, qtype);
      && reply.Some? && (reply.value.nameError <==> rrs == [])
      && RecordsOf(reply.value.answer, name, rrs, at, qtype)
      && reply.value.authority == if at == [] then [SOA(scope.zone)] else []
  {
    var name := Lower(Fqdn(qname));
    LookupFollowsTheRule(snap, text, input, names, view, name);
    LookupIsWellFormed(snap, text, input, names, view, name);
    LowerTwice(Fqdn(qname));
    hide *;
    PlainReply(scope, snap, view, qname, qtype);
    at := ConvertedRecords(Lookup(snap, view, name), name, qtype);
  }

  lemma SomeAddressCounts(svc: Service, view: string, at: seq<nat>)
    requires Has(svc, view)
    requires Lists(at, |svc.addresses|, set i: nat |
      i < |svc.addresses| && svc.addresses[i].view == TagFor(view, AddressTag(), svc.addresses))
    ensures at != []
  {
    var a :| a in svc.addresses && (a.view == view || a.view == "");
    var tag := TagFor(view, AddressTag(), svc.addresses);
    var b :| b in svc.addresses && b.view == tag;
    var i :| 0 <= i < |svc.addresses| && svc.addresses[i] == b;
    assert i in at;
  }

  lemma NoCNAMEServed(text: AddrText, input: Input, view: string, zone: string, name: string)
    requires Manual(input, view, name) == {}
    ensures forall rr :: rr in Answer(text, input, view, zone, name) ==> rr.kind != "CNAME"
  {
    var none := ManualRecordsAnswer(text, input, view, zone, name);
    NoneListed(none, |input.records|);
    ServiceIsPlain(text, input.leases, input.services, view, zone, name);
  }

  // So a name that no manual record has, and that a service answers for as the last one,
  // is answered with exactly its addresses for the view of the family asked for, in order.
  lemma ServiceIsAnswered(scope: Scope, snap: Snapshot, text: AddrText, input: Input, names: seq<string>,
                          view: string, qname: string, qtype: nat, i: nat)
    returns (at: seq<nat>)
    requires Built(snap, text, input, names) && Authoritative.Owns(scope, qname) && qtype != 12
    requires Lower(Fqdn(qname)) != scope.zone && Manual(input, Effective(names, view), Lower(Fqdn(qname))) == {}
    requires i < |input.services| && !(input.services[i].routed && input.services[i].proxy != "")
    requires Serves(input.services[i], Effective(names, view), snap.zone, Lower(Fqdn(qname)))
    requires forall j :: i < j < |input.services| ==>
      !Serves(input.services[j], Effective(names, view), snap.zone, Lower(Fqdn(qname)))
    ensures var name, addrs := Lower(Fqdn(qname)), input.services[i].addresses;
      var tag := TagFor(Effective(names, view), AddressTag(), addrs);
      var reply := ReplyTo(scope, snap, view, qname, qtype);
      && reply.Some? && !reply.value.nameError
      && AddressesOf(reply.value.answer, name, text, addrs, tag, at, qtype)
  {
    var name, v, addrs := Lower(Fqdn(qname)), Effective(names, view), input.services[i].addresses;
    var outer := ServiceAnswers(text, input, v, snap.zone, name, i);
    var rrs := Answer(text, input, v, snap.zone, name);
    NoCNAMEServed(text, input, v, snap.zone, name);
    var inner := AddressesAreAnswered(scope, snap, text, input, names, view, qname, qtype);
    SomeAddressCounts(input.services[i], v, outer);
    hide *;
    AddressesThroughRecords(ReplyTo(scope, snap, view, qname, qtype).value.answer, name, text, addrs,
                            TagFor(v, AddressTag(), addrs), outer, rrs, inner, qtype);
    at := Through(outer, inner);
  }

  // ----- the other questions -----

  // A PTR question is answered with the one name its key points at, or not found.
  lemma TargetIsAnswered(scope: Scope, snap: Snapshot, text: AddrText, input: Input, names: seq<string>,
                         view: string, qname: string)
    requires Built(snap, text, input, names) && Authoritative.Owns(scope, qname) && Lower(Fqdn(qname)) != scope.zone
    ensures var name := Lower(Fqdn(qname));
      var target := Target(text, input, Effective(names, view), snap.zone, name);
      ReplyTo(scope, snap, view, qname, 12) ==
        if target.Some? && target.value != "" then Some(Reply(false, [PTR(name, Fqdn(target.value))], []))
        else Some(Reply(true, [], [SOA(scope.zone)]))
  {
    LookupFollowsTheRule(snap, text, input, names, view, Lower(Fqdn(qname)));
    LowerTwice(Fqdn(qname));
  }

  // The apex has its SOA and its name server, and nothing else whatever the snapshot holds.
  lemma ApexIsAnswered(scope: Scope, snap: Snapshot, view: string, qname: string, qtype: nat)
    requires Lower(Fqdn(qname)) == scope.zone
    ensures ReplyTo(scope, snap, view, qname, qtype) == Some(
      if qtype == 6 then Reply(false, [SOA(scope.zone)], [])
      else if qtype == 2 then Reply(false, [NS(scope.zone, "ns." + scope.zone)], [])
      else Reply(false, [], [SOA(scope.zone)]))
  {
    assert Fqdn(qname) != "";
  }

  // A name outside the two reverse trees is ours exactly when it is the zone or some label
  // path in front of it, whatever its case and with or without the dot at the end; no
  // other gets a reply.
  lemma ForwardNameIsOwnedExactly(scope: Scope, snap: Snapshot, view: string, qname: string, qtype: nat)
    requires var n := Lower(Fqdn(qname)); !EndsWith(n, ".in-addr.arpa.") && !EndsWith(n, ".ip6.arpa.")
    ensures ReplyTo(scope, snap, view, qname, qtype).Some? <==>
      var n := Lower(Fqdn(qname));
      scope.zone != "" && (n == scope.zone || exists p :: n == p + "." + scope.zone)
  {
    LabelsBefore(Lower(Fqdn(qname)), scope.zone);
    hide EndsWith, Fqdn, Lower, LowerChar;
  }

  lemma LabelsBefore(n: string, zone: string)
    ensures EndsWith(n, "." + zone) <==> exists p :: n == p + "." + zone
  {
    if EndsWith(n, "." + zone) {
      var p := n[..|n| - |"." + zone|];
      assert n == p + ("." + zone) == p + "." + zone;
    }
    if p :| n == p + "." + zone {
      assert n == p + ("." + zone);
      EndsWithOwn(p, "." + zone);
    }
  }

  lemma NoAddrIsNotRead(name: string)
    ensures Arpa.AddrFromArpa(name) != Some(NoAddr)
  {
    hide Lower, TrimSuffix, EndsWith;
  }

  // A name inside them, its labels plain, is ours exactly when it is a name of
  // the zone, or what some address of a reverse zone prints as in its own family; and no
  // other gets a reply.
  lemma ReverseNameIsOwned(scope: Scope, snap: Snapshot, view: string, qname: string, qtype: nat)
    requires var n := Lower(Fqdn(qname));
      (EndsWith(n, ".in-addr.arpa.") || EndsWith(n, ".ip6.arpa.")) && ReverseReads.PlainLabels(ReverseReads.Labels(n))
    ensures ReplyTo(scope, snap, view, qname, qtype).Some? <==>
      var n := Lower(Fqdn(qname));
      || (scope.zone != "" && (n == scope.zone || exists p :: n == p + "." + scope.zone))
      || exists a :: a != NoAddr && ReverseReads.AsRead(n) == ReverseReads.Printed(a) && InZones(a, scope.reverseZones)
  {
    var n := Lower(Fqdn(qname));
    LabelsBefore(n, scope.zone);
    NoAddrIsNotRead(n);
    forall a | a != NoAddr
      ensures Arpa.AddrFromArpa(n) == Some(a) <==> ReverseReads.AsRead(n) == ReverseReads.Printed(a)
    {
      ReverseReads.ReadExactly(n, a);
    }
    hide EndsWith, Fqdn, Lower, LowerChar, Arpa.AddrFromArpa, ReverseReads.AsRead, ReverseReads.Printed, InZones;
  }
}
