/** Answers from the snapshot: which names are ours, CNAME chains followed inside
    the zone, and what is NODATA and what does not exist. */
module Authoritative {
  import opened Wrappers
  import opened Net
  import opened Names
  import opened Arpa
  import opened ZoneIndex
  import opened ZoneSnapshot
  import opened Chasing
  import RenamedAnswers

  datatype Reply = Reply(nameError: bool, answer: seq<Rec>, authority: seq<Rec>)

  // What the server is authoritative for.
  datatype Scope = Scope(zone: string, reverseZones: seq<Prefix>)

  predicate InZone(n: string, zone: string) {
    zone != "" && (n == zone || EndsWith(n, "." + zone))
  }

  predicate OwnsReverse(reverseZones: seq<Prefix>, n: string) {
    (EndsWith(n, ".in-addr.arpa.") || EndsWith(n, ".ip6.arpa.")) &&
    AddrFromArpa(n).Some? && InZones(AddrFromArpa(n).value, reverseZones)
  }

  predicate Owns(scope: Scope, qname: string) {
    var n := Lower(Fqdn(qname));
    InZone(n, scope.zone) || OwnsReverse(scope.reverseZones, n)
  }

  function SourceOf(scope: Scope, snap: Snapshot, view: string): Source {
    Source(n => Owns(scope, n), n => Lookup(snap, view, n))
  }

  // The reply to a question about a name that is ours, from what the snapshot says of
  // it: its reverse target, its records, and where a CNAME leads.
  function Compose(zone: string, src: Source, target: string, name: string, qtype: nat): Reply {
    var soa := [SOA(zone)];
    if name == zone then
      if qtype == TYPE_SOA then Reply(false, soa, [])
      else if qtype == TYPE_NS then Reply(false, [NS(zone, "ns." + zone)], [])
      else Reply(false, [], soa)
    else if qtype == TYPE_PTR then
      if target != "" then Reply(false, [PTR(name, Fqdn(target))], []) else Reply(true, [], soa)
    else
      var rrs := src.lookup(name);
      if rrs == [] then Reply(true, [], soa)
      else if rrs[0].kind == "CNAME" then Reply(false, Chase(src, name, rrs[0].value, qtype, 0), [])
      else
        var out := Convert(rrs, qtype);
        Reply(false, out, if out == [] then soa else [])
  }

  function ReplyTo(scope: Scope, snap: Snapshot, view: string, qname: string, qtype: nat): Option<Reply> {
    var name := Lower(Fqdn(qname));
    if !Owns(scope, qname) then None
    else Some(Compose(scope.zone, SourceOf(scope, snap, view), LookupPTR(snap, view, name), name, qtype))
  }

  class Authority {
    var scope: Scope

    constructor (zone: string, reverseZones: seq<Prefix>)
      ensures scope == Scope(Lower(Fqdn(zone)), MaskAll(reverseZones))
    {
      scope := Scope(Lower(Fqdn(zone)), MaskAll(reverseZones));
    }

    method SetZone(zone: string)
      modifies this
      ensures scope == old(scope).(zone := Lower(Fqdn(zone)))
    {
      scope := scope.(zone := Lower(Fqdn(zone)));
    }

    method SetReverseZones(zones: seq<Prefix>)
      modifies this
      ensures scope == old(scope).(reverseZones := MaskAll(zones))
    {
      var masked: seq<Prefix> := [];
      for i := 0 to |zones|
        invariant masked == MaskAll(zones)[..i]
        invariant scope == old(scope)
      {
        masked := masked + [Canonical(zones[i])];
      }
      scope := scope.(reverseZones := masked);
    }

    method Answer(snap: Option<Snapshot>, view: string, qname: string, qtype: nat) returns (reply: Option<Reply>)
      ensures reply == if snap.None? then None else ReplyTo(scope, snap.value, view, qname, qtype)
    {
      if snap.None? || !Owns(scope, qname) {
        return None;
      }
      var name := Lower(Fqdn(qname));
      var soa := [SOA(scope.zone)];
      if name == scope.zone {
        if qtype == TYPE_SOA {
          return Some(Reply(false, soa, []));
        } else if qtype == TYPE_NS {
          return Some(Reply(false, [NS(scope.zone, "ns." + scope.zone)], []));
        }
        return Some(Reply(false, [], soa));
      }
      if qtype == TYPE_PTR {
        var target := LookupPTR(snap.value, view, name);
        if target != "" {
          return Some(Reply(false, [PTR(name, Fqdn(target))], []));
        }
        return Some(Reply(true, [], soa));
      }
      var rrs := Lookup(snap.value, view, name);
      if |rrs| == 0 {
        return Some(Reply(true, [], soa));
      }
      if rrs[0].kind == "CNAME" {
        return Some(Reply(false, Chase(SourceOf(scope, snap.value, view), name, rrs[0].value, qtype, 0), []));
      }
      var out: seq<Rec> := [];
      for i := 0 to |rrs|
        invariant out == Convert(rrs[..i], qtype)
      {
        assert rrs[..i + 1][..i] == rrs[..i];
        var converted := ToRR(rrs[i], qtype);
        if converted.Some? {
          out := out + [converted.value];
        }
      }
      assert rrs[..|rrs|] == rrs;
      reply := Some(Reply(false, out, if |out| == 0 then soa else []));
    }
  }

  function MaskAll(zones: seq<Prefix>): (r: seq<Prefix>)
    ensures |r| == |zones|
  {
    seq(|zones|, i requires 0 <= i < |zones| => Canonical(zones[i]))
  }

  // ----- chains -----

  lemma SourceIsOrderly(scope: Scope, snap: Snapshot, text: AddrText, input: Input, names: seq<string>, view: string)
    requires Built(snap, text, input, names)
    ensures Orderly(SourceOf(scope, snap, view))
  {
    var src := SourceOf(scope, snap, view);
    forall t ensures DotBlind(src, t) { LowerFqdn(t); }
    forall n ensures OrderlyAt(src, n) { LookupIsWellFormed(snap, text, input, names, view, n); }
  }

  // A CNAME answer over an accepted snapshot is a chain from the name asked for, of at
  // most nine CNAMEs, followed only by the last target's addresses of the asked type.
  lemma CNAMEAnswerIsAChain(scope: Scope, snap: Snapshot, text: AddrText, input: Input, names: seq<string>,
                            view: string, qname: string, qtype: nat)
    returns (k: nat)
    requires Built(snap, text, input, names) && Owns(scope, qname)
    requires Lower(Fqdn(qname)) != scope.zone && qtype != TYPE_PTR
    requires var rrs := Lookup(snap, view, Lower(Fqdn(qname))); rrs != [] && rrs[0].kind == "CNAME"
    ensures var name := Lower(Fqdn(qname));
      var recs := ReplyTo(scope, snap, view, qname, qtype).value.answer;
      && Chain(SourceOf(scope, snap, view), name, Lookup(snap, view, name)[0].value, qtype, recs, k)
      && k <= 9
      && Complete(SourceOf(scope, snap, view), qtype, recs, k, 0)
  {
    var name := Lower(Fqdn(qname));
    var rrs := Lookup(snap, view, name);
    SourceIsOrderly(scope, snap, text, input, names, view);
    LookupIsWellFormed(snap, text, input, names, view, name);
    assert rrs[0] in rrs;
    k := ChaseIsAChain(SourceOf(scope, snap, view), name, rrs[0].value, qtype, 0);
  }

  // ----- which replies mean what -----

  // A name we own other than the apex does not exist exactly when the snapshot has
  // nothing there of the kind looked for; NODATA is left for names that do exist.
  lemma NameErrorExactly(scope: Scope, snap: Snapshot, view: string, qname: string, qtype: nat)
    requires Owns(scope, qname)
    ensures var name := Lower(Fqdn(qname));
      var reply := ReplyTo(scope, snap, view, qname, qtype);
      && reply.Some?
      && (reply.value.nameError <==>
            name != scope.zone && if qtype == TYPE_PTR then LookupPTR(snap, view, name) == ""
              else Lookup(snap, view, name) == [])
      && (reply.value.authority != [] <==> reply.value.answer == [])
  {
  }

  // Over an accepted snapshot a name we own other than the apex does not exist exactly
  // when the precedence rule, for the view that counts, gives nothing: no manual record,
  // no service and no lease for the name, or for a PTR question nothing that points from it.
  lemma NameErrorFollowsTheRule(scope: Scope, snap: Snapshot, text: AddrText, input: Input, names: seq<string>,
                                view: string, qname: string, qtype: nat)
    requires Built(snap, text, input, names) && Owns(scope, qname) && Lower(Fqdn(qname)) != scope.zone
    ensures var name, v := Lower(Fqdn(qname)), Effective(names, view);
      ReplyTo(scope, snap, view, qname, qtype).value.nameError <==>
        if qtype == TYPE_PTR then Target(text, input, v, snap.zone, name) in {None, Some("")}
        else Answer(text, input, v, snap.zone, name) == []
  {
    NameErrorExactly(scope, snap, view, qname, qtype);
    LookupFollowsTheRule(snap, text, input, names, view, Lower(Fqdn(qname)));
    LowerTwice(Fqdn(qname));
  }

  // ----- reverse names -----

  lemma MaskAllSame(zones: seq<Prefix>, a: Addr)
    ensures InZones(a, MaskAll(zones)) <==> InZones(a, zones)
  {
    forall i | 0 <= i < |zones| ensures Contains(MaskAll(zones)[i], a) <==> Contains(zones[i], a) {
      if zones[i].Valid() { MaskedContains(zones[i], a); }
    }
    if InZones(a, zones) {
      var z :| z in zones && Contains(z, a);
      var i :| 0 <= i < |zones| && zones[i] == z;
      assert MaskAll(zones)[i] in MaskAll(zones);
    }
    if InZones(a, MaskAll(zones)) {
      var z :| z in MaskAll(zones) && Contains(z, a);
      var i :| 0 <= i < |zones| && MaskAll(zones)[i] == z;
      assert zones[i] in zones;
    }
  }

  // A printed reverse name is ours exactly when it is a name of the private zone or a
  // reverse zone holds the address it stands for, which for a mapped address is the IPv4
  // one. With a private zone apart from the two reverse trees only the address counts.
  lemma ReverseNameIsOwnedExactly(zone: string, zones: seq<Prefix>, a: Addr)
    requires a != NoAddr
    ensures var scope := Scope(zone, MaskAll(zones));
      && (Owns(scope, ArpaName(a)) <==> InZone(ArpaName(a), zone) || InZones(Unmap(a), zones))
      && (RenamedAnswers.ForwardZone(zone) ==> (Owns(scope, ArpaName(a)) <==> InZones(Unmap(a), zones)))
  {
    PrintedIsNormal(a);
    ReadingUndoesPrinting(a);
    MaskAllSame(zones, Unmap(a));
    if RenamedAnswers.ForwardZone(zone) {
      var tree := if EndsWith(ArpaName(a), ".in-addr.arpa.") then ".in-addr.arpa." else ".ip6.arpa.";
      RenamedAnswers.ApartIsOutside(ArpaName(a), zone, tree);
    }
  }

  // So every derived PTR of an address that is not a mapped one can be asked for.
  lemma DerivedPTRIsServed(text: AddrText, zones: seq<Prefix>, s: string, zone: string)
    requires DerivedKey(text, zones, s).Some? && !Is4In6(text(s))
    ensures Owns(Scope(zone, MaskAll(zones)), DerivedKey(text, zones, s).value)
  {
    ReverseNameIsOwnedExactly(zone, zones, text(s));
  }
}
