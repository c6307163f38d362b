/** A zone rename that moves the manual records preserves every answer. */
module RenamedAnswers {
  import opened Wrappers
  import opened Net
  import opened Names
  import opened Arpa
  import opened ZoneIndex
  import opened ZoneRename

  function MoveRR(rr: RR, from: string, to: string): RR {
    RR(Move(rr.name, from, to), rr.kind, if rr.kind == "CNAME" then Move(rr.value, from, to) else rr.value)
  }

  function MoveRRs(rrs: seq<RR>, from: string, to: string): (r: seq<RR>)
    ensures |r| == |rrs| && forall i :: 0 <= i < |rrs| ==> r[i] == MoveRR(rrs[i], from, to)
  {
    seq(|rrs|, i requires 0 <= i < |rrs| => MoveRR(rrs[i], from, to))
  }

  // One record of the store, moved: its name, and its value where that is a name.
  function MoveRecord(r: Record, from: string, to: string): Record {
    r.(name := RenameInZone(r.name, from, to).0,
       value := if r.kind == "CNAME" || r.kind == "PTR" then RenameInZone(r.value, from, to).0 else r.value)
  }

  function MoveRecords(rs: seq<Record>, from: string, to: string): (m: seq<Record>)
    ensures |m| == |rs| && forall i :: 0 <= i < |rs| ==> m[i] == MoveRecord(rs[i], from, to)
  {
    seq(|rs|, i requires 0 <= i < |rs| => MoveRecord(rs[i], from, to))
  }

  function MoveInput(input: Input, from: string, to: string): Input {
    input.(records := MoveRecords(input.records, from, to))
  }

  // ----- what the rename asks of the configuration -----

  // As the registry stores it: normal names, settled with respect to both zones.
  predicate StoredRecord(r: Record, from: string, to: string) {
    && Normal(r.name) && Settled(r.name, from, to)
    && (r.kind == "CNAME" || r.kind == "PTR" ==> Normal(r.value))
  }

  predicate HostsFollow(svc: Service, from: string, to: string) {
    HostFollows(svc.name, from, to) && forall a :: a in svc.aliases ==> HostFollows(a, from, to)
  }

  // The zone does not meet the reverse tree.
  predicate ApartFrom(zone: string, tree: string) {
    !EndsWith("." + zone, tree) && !EndsWith(tree, "." + zone)
  }

  predicate ForwardZone(z: string) {
    IsZone(z) && ApartFrom(z, ".in-addr.arpa.") && ApartFrom(z, ".ip6.arpa.")
  }

  ghost predicate Renameable(input: Input, from: string, to: string) {
    && ForwardZone(from) && ForwardZone(to) && from != to
    && (forall r :: r in input.records ==> StoredRecord(r, from, to))
    && (forall s :: s in input.services ==> HostsFollow(s, from, to))
    && (forall l :: l in input.leases ==> HostFollows(l.hostname, from, to))
  }

  // ----- records -----

  lemma MoveRecordIs(r: Record, from: string, to: string)
    requires IsZone(from) && IsZone(to) && from != to && StoredRecord(r, from, to)
    ensures var m := MoveRecord(r, from, to);
      && m.name == Move(r.name, from, to) && Normal(m.name) && m.view == r.view && m.kind == r.kind
      && (r.kind == "CNAME" || r.kind == "PTR" ==> m.value == Move(r.value, from, to) && Normal(m.value))
      && (r.kind != "CNAME" && r.kind != "PTR" ==> m.value == r.value)
  {
    RenameIsMove(r.name, from, to);
    MoveKeepsNormal(r.name, from, to);
    if r.kind == "CNAME" || r.kind == "PTR" {
      RenameIsMove(r.value, from, to);
      MoveKeepsNormal(r.value, from, to);
    }
  }

  lemma MoveRecordsTake(rs: seq<Record>, n: nat, from: string, to: string)
    requires n <= |rs|
    ensures MoveRecords(rs, from, to)[..n] == MoveRecords(rs[..n], from, to)
  {
  }

  lemma {:induction false} TaggedMoves(tag: string, rs: seq<Record>, from: string, to: string)
    ensures Tagged(tag, RecordTag(), MoveRecords(rs, from, to)) == MoveRecords(Tagged(tag, RecordTag(), rs), from, to)
    ensures forall r :: r in Tagged(tag, RecordTag(), rs) ==> r in rs
  {
    if rs != [] {
      var n := |rs| - 1;
      MoveRecordsTake(rs, n, from, to);
      TaggedMoves(tag, rs[..n], from, to);
      var rest := Tagged(tag, RecordTag(), rs[..n]);
      assert MoveRecords(rest + [rs[n]], from, to) == MoveRecords(rest, from, to) + [MoveRecord(rs[n], from, to)];
    }
  }

  lemma PickedMoves(input: Input, view: string, from: string, to: string)
    ensures PickedRecords(MoveInput(input, from, to), view) == MoveRecords(PickedRecords(input, view), from, to)
    ensures forall r :: r in PickedRecords(input, view) ==> r in input.records
  {
    TaggedMoves(view, input.records, from, to);
    TaggedMoves("", input.records, from, to);
  }

  // A moved record answers at the moved name exactly when it answered at the name.
  lemma RecordMoves(r: Record, n: string, from: string, to: string)
    requires IsZone(from) && IsZone(to) && from != to && StoredRecord(r, from, to) && Settled(n, from, to)
    ensures var m := MoveRecord(r, from, to);
      && m.kind == r.kind && (Lower(m.name) == Move(n, from, to) <==> Lower(r.name) == n)
      && (r.kind != "PTR" ==>
          RR(Move(n, from, to), m.kind, Lower(m.value)) == MoveRR(RR(n, r.kind, Lower(r.value)), from, to))
      && (r.kind == "PTR" ==> Lower(m.value) == Move(Lower(r.value), from, to))
  {
    MoveRecordIs(r, from, to);
    if Move(r.name, from, to) == Move(n, from, to) { MoveIsInjective(r.name, n, from, to); }
  }

  lemma {:induction false} ManualMoves(rs: seq<Record>, n: string, from: string, to: string)
    requires IsZone(from) && IsZone(to) && from != to && Settled(n, from, to)
    requires forall r :: r in rs ==> StoredRecord(r, from, to)
    ensures ManualAnswer(MoveRecords(rs, from, to), Move(n, from, to)) == MoveRRs(ManualAnswer(rs, n), from, to)
  {
    if rs != [] {
      var k := |rs| - 1;
      assert rs[k] in rs;
      MoveRecordsTake(rs, k, from, to);
      ManualMoves(rs[..k], n, from, to);
      RecordMoves(rs[k], n, from, to);
      MoveRRsGrow(ManualAnswer(rs[..k], n), RR(n, rs[k].kind, Lower(rs[k].value)), from, to);
    }
  }

  lemma MoveRRsGrow(rrs: seq<RR>, rr: RR, from: string, to: string)
    ensures MoveRRs(rrs + [rr], from, to) == MoveRRs(rrs, from, to) + [MoveRR(rr, from, to)]
  {
  }

  // ----- services and leases -----

  lemma AddressRRsMove(text: AddrText, n: string, addrs: seq<Address>, from: string, to: string)
    ensures AddressRRs(text, Move(n, from, to), addrs) == MoveRRs(AddressRRs(text, n, addrs), from, to)
  {
  }

  lemma HostMoves(host: string, n: string, from: string, to: string)
    requires IsZone(from) && IsZone(to) && from != to && HostFollows(host, from, to) && Settled(n, from, to)
    ensures Qualify(host, to) == Move(n, from, to) <==> Qualify(host, from) == n
  {
    SettledHostsExactly(host, from, to);
    if Qualify(host, to) == Move(n, from, to) { MoveIsInjective(Qualify(host, from), n, from, to); }
  }

  lemma ClaimsNameMoves(svc: Service, view: string, n: string, from: string, to: string)
    requires IsZone(from) && IsZone(to) && from != to && HostsFollow(svc, from, to) && Settled(n, from, to)
    ensures ClaimsName(svc, view, to, Move(n, from, to)) <==> ClaimsName(svc, view, from, n)
  {
    HostMoves(svc.name, n, from, to);
    AliasesMove(svc.aliases, n, from, to);
  }

  lemma {:induction false} AliasesMove(aliases: seq<string>, n: string, from: string, to: string)
    requires IsZone(from) && IsZone(to) && from != to && Settled(n, from, to)
    requires forall a :: a in aliases ==> HostFollows(a, from, to)
    ensures AliasTo(aliases, to, Move(n, from, to)) <==> AliasTo(aliases, from, n)
  {
    if AliasTo(aliases, to, Move(n, from, to)) {
      var a :| a in aliases && Move(n, from, to) == Qualify(a, to);
      HostMoves(a, n, from, to);
    }
    if AliasTo(aliases, from, n) {
      var a :| a in aliases && n == Qualify(a, from);
      HostMoves(a, n, from, to);
    }
  }

  lemma {:induction false} LeasesMove(text: AddrText, leases: seq<Lease>, n: string, from: string, to: string)
    requires IsZone(from) && IsZone(to) && from != to && Settled(n, from, to)
    requires forall l :: l in leases ==> HostFollows(l.hostname, from, to)
    ensures LeaseAnswer(text, leases, to, Move(n, from, to)) == MoveRRs(LeaseAnswer(text, leases, from, n), from, to)
  {
    if leases != [] {
      HostMoves(leases[|leases| - 1].hostname, n, from, to);
      LeasesMove(text, leases[..|leases| - 1], n, from, to);
    }
  }

  lemma {:induction false} ServicesMove(text: AddrText, leases: seq<Lease>, svcs: seq<Service>, view: string, n: string,
                                        from: string, to: string)
    requires IsZone(from) && IsZone(to) && from != to && Settled(n, from, to)
    requires forall l :: l in leases ==> HostFollows(l.hostname, from, to)
    requires forall s :: s in svcs ==> HostsFollow(s, from, to)
    ensures ServiceAnswer(text, leases, svcs, view, to, Move(n, from, to)) ==
      MoveRRs(ServiceAnswer(text, leases, svcs, view, from, n), from, to)
  {
    if svcs == [] {
      LeasesMove(text, leases, n, from, to);
    } else {
      var svc := svcs[|svcs| - 1];
      ServicesMove(text, leases, svcs[..|svcs| - 1], view, n, from, to);
      ClaimsNameMoves(svc, view, n, from, to);
      AddressRRsMove(text, n, Answering(svc, view), from, to);
    }
  }

  // Every name of the old zone, and every name outside both, answers after the rename
  // exactly what it answered before, with owners and CNAME targets moved.
  lemma ForwardAnswersMove(text: AddrText, input: Input, view: string, from: string, to: string, n: string)
    requires Renameable(input, from, to) && Settled(n, from, to)
    ensures Answer(text, MoveInput(input, from, to), view, to, Move(n, from, to)) ==
      MoveRRs(Answer(text, input, view, from, n), from, to)
  {
    PickedMoves(input, view, from, to);
    ManualMoves(PickedRecords(input, view), n, from, to);
    ServicesMove(text, input.leases, input.services, view, n, from, to);
  }

  // ----- reverse entries -----

  lemma DerivedIsApart(text: AddrText, zones: seq<Prefix>, s: string, zone: string)
    requires ForwardZone(zone) && DerivedKey(text, zones, s).Some?
    ensures !Inside(DerivedKey(text, zones, s).value, zone)
  {
    var key := DerivedKey(text, zones, s).value;
    PrintedIsNormal(text(s));
    ApartIsOutside(key, zone, if EndsWith(key, ".in-addr.arpa.") then ".in-addr.arpa." else ".ip6.arpa.");
  }

  lemma ApartIsOutside(key: string, zone: string, tree: string)
    requires EndsWith(key, tree) && tree != "" && tree[0] == '.' && ApartFrom(zone, tree)
    ensures !Inside(key, zone)
  {
    if EndsWith(key, "." + zone) {
      if |tree| <= |"." + zone| { SuffixesNest(key, tree, "." + zone); } else { SuffixesNest(key, "." + zone, tree); }
    }
    if key == zone { EndsInDotted(zone, tree); }
  }

  lemma EndsInDotted(zone: string, tree: string)
    requires EndsWith(zone, tree)
    ensures EndsWith("." + zone, tree)
  {
  }

  lemma KeyMoves(text: AddrText, zones: seq<Prefix>, s: string, k: string, from: string, to: string)
    requires ForwardZone(from) && ForwardZone(to) && Settled(k, from, to)
    ensures DerivedKey(text, zones, s) == Some(Move(k, from, to)) <==> DerivedKey(text, zones, s) == Some(k)
  {
    if DerivedKey(text, zones, s).Some? {
      var key := DerivedKey(text, zones, s).value;
      DerivedIsApart(text, zones, s, from);
      DerivedIsApart(text, zones, s, to);
      if key == Move(k, from, to) { MoveIsInjective(key, k, from, to); }
    }
  }

  function MoveTarget(t: Option<string>, from: string, to: string): Option<string> {
    match t case None => None case Some(n) => Some(Move(n, from, to))
  }

  lemma {:induction false} LeaseTargetsMove(text: AddrText, zones: seq<Prefix>, leases: seq<Lease>, k: string,
                                            from: string, to: string)
    requires ForwardZone(from) && ForwardZone(to) && from != to && Settled(k, from, to)
    requires forall l :: l in leases ==> HostFollows(l.hostname, from, to)
    ensures LeaseTarget(text, zones, leases, to, Move(k, from, to)) ==
      MoveTarget(LeaseTarget(text, zones, leases, from, k), from, to)
  {
    if leases != [] {
      var l := leases[|leases| - 1];
      KeyMoves(text, zones, l.address, k, from, to);
      SettledHostsExactly(l.hostname, from, to);
      LeaseTargetsMove(text, zones, leases[..|leases| - 1], k, from, to);
    }
  }

  lemma {:induction false} ServiceTargetsMove(text: AddrText, zones: seq<Prefix>, leases: seq<Lease>,
                                              svcs: seq<Service>, view: string, k: string, from: string, to: string)
    requires ForwardZone(from) && ForwardZone(to) && from != to && Settled(k, from, to)
    requires forall l :: l in leases ==> HostFollows(l.hostname, from, to)
    requires forall s :: s in svcs ==> HostsFollow(s, from, to)
    ensures ServiceTarget(text, zones, leases, svcs, view, to, Move(k, from, to)) ==
      MoveTarget(ServiceTarget(text, zones, leases, svcs, view, from, k), from, to)
  {
    if svcs == [] {
      LeaseTargetsMove(text, zones, leases, k, from, to);
    } else {
      var svc := svcs[|svcs| - 1];
      ServiceTargetsMove(text, zones, leases, svcs[..|svcs| - 1], view, k, from, to);
      assert svc in svcs;
      SettledHostsExactly(svc.name, from, to);
      ClaimsKeyMoves(text, zones, svc, view, k, from, to);
    }
  }

  lemma ClaimsKeyMoves(text: AddrText, zones: seq<Prefix>, svc: Service, view: string, k: string, from: string,
                       to: string)
    requires ForwardZone(from) && ForwardZone(to) && Settled(k, from, to)
    ensures ClaimsKey(text, zones, svc, view, Move(k, from, to)) <==> ClaimsKey(text, zones, svc, view, k)
  {
    if ClaimsKey(text, zones, svc, view, Move(k, from, to)) {
      var a :| a in PickedAddresses(svc, view) && DerivedKey(text, zones, a.text) == Some(Move(k, from, to));
      KeyMoves(text, zones, a.text, k, from, to);
    }
    if ClaimsKey(text, zones, svc, view, k) {
      var a :| a in PickedAddresses(svc, view) && DerivedKey(text, zones, a.text) == Some(k);
      KeyMoves(text, zones, a.text, k, from, to);
    }
  }

  lemma {:induction false} PTRsMove(text: AddrText, zones: seq<Prefix>, leases: seq<Lease>, svcs: seq<Service>,
                                    rs: seq<Record>, view: string, k: string, from: string, to: string)
    requires ForwardZone(from) && ForwardZone(to) && from != to && Settled(k, from, to)
    requires forall l :: l in leases ==> HostFollows(l.hostname, from, to)
    requires forall s :: s in svcs ==> HostsFollow(s, from, to)
    requires forall r :: r in rs ==> StoredRecord(r, from, to)
    ensures Reverse(text, zones, leases, svcs, MoveRecords(rs, from, to), view, to, Move(k, from, to))
      == MoveTarget(Reverse(text, zones, leases, svcs, rs, view, from, k), from, to)
  {
    if rs == [] {
      assert MoveRecords(rs, from, to) == [];
      ServiceTargetsMove(text, zones, leases, svcs, view, k, from, to);
    } else {
      var n := |rs| - 1;
      MoveRecordsTake(rs, n, from, to);
      PTRsMove(text, zones, leases, svcs, rs[..n], view, k, from, to);
      assert rs[n] in rs;
      RecordMoves(rs[n], k, from, to);
    }
  }

  // Every reverse entry points after the rename where it pointed before, moved.
  lemma ReverseAnswersMove(text: AddrText, input: Input, view: string, from: string, to: string, k: string)
    requires Renameable(input, from, to) && Settled(k, from, to)
    ensures Target(text, MoveInput(input, from, to), view, to, Move(k, from, to)) ==
      MoveTarget(Target(text, input, view, from, k), from, to)
  {
    PickedMoves(input, view, from, to);
    PTRsMove(text, input.reverseZones, input.leases, input.services, PickedRecords(input, view), view, k, from, to);
  }

  // ----- nothing stays behind -----

  lemma {:induction false} ManualLeaves(rs: seq<Record>, n: string, from: string, to: string)
    requires IsZone(from) && IsZone(to) && from != to && Inside(n, from) && !Inside(n, to)
    requires forall r :: r in rs ==> StoredRecord(r, from, to)
    ensures ManualAnswer(MoveRecords(rs, from, to), n) == []
  {
    if rs != [] {
      var k := |rs| - 1;
      MoveRecordsTake(rs, k, from, to);
      ManualLeaves(rs[..k], n, from, to);
      RecordLeaves(rs[k], n, from, to);
    }
  }

  lemma RecordLeaves(r: Record, n: string, from: string, to: string)
    requires IsZone(from) && IsZone(to) && from != to && Inside(n, from) && !Inside(n, to) && StoredRecord(r, from, to)
    ensures Lower(MoveRecord(r, from, to).name) != n
  {
    MoveRecordIs(r, from, to);
    if Inside(r.name, from) { MoveLands(r.name, from, to); }
  }

  lemma {:induction false} ServicesLeave(text: AddrText, leases: seq<Lease>, svcs: seq<Service>, view: string,
                                         n: string, from: string, to: string)
    requires IsZone(from) && IsZone(to) && from != to && Inside(n, from) && !Inside(n, to)
    requires forall l :: l in leases ==> HostFollows(l.hostname, from, to)
    requires forall s :: s in svcs ==> HostsFollow(s, from, to)
    ensures ServiceAnswer(text, leases, svcs, view, to, n) == []
  {
    if svcs == [] {
      LeasesLeave(text, leases, n, from, to);
    } else {
      var svc := svcs[|svcs| - 1];
      ServicesLeave(text, leases, svcs[..|svcs| - 1], view, n, from, to);
      assert svc in svcs;
      HostLeaves(svc.name, n, from, to);
      forall a | a in svc.aliases ensures n != Qualify(a, to) { HostLeaves(a, n, from, to); }
    }
  }

  lemma {:induction false} LeasesLeave(text: AddrText, leases: seq<Lease>, n: string, from: string, to: string)
    requires IsZone(from) && IsZone(to) && from != to && Inside(n, from) && !Inside(n, to)
    requires forall l :: l in leases ==> HostFollows(l.hostname, from, to)
    ensures LeaseAnswer(text, leases, to, n) == []
  {
    if leases != [] {
      LeasesLeave(text, leases[..|leases| - 1], n, from, to);
      HostLeaves(leases[|leases| - 1].hostname, n, from, to);
    }
  }

  lemma HostLeaves(host: string, n: string, from: string, to: string)
    requires IsZone(from) && IsZone(to) && from != to && HostFollows(host, from, to)
    requires Inside(n, from) && !Inside(n, to)
    ensures Qualify(host, to) != n
  {
    PrefixedIsInside(HostText(host), to);
  }

  // A name of the old zone that is not also in the new one answers nothing any more.
  lemma OldNamesAreGone(text: AddrText, input: Input, view: string, from: string, to: string, n: string)
    requires Renameable(input, from, to) && Inside(n, from) && !Inside(n, to)
    ensures Answer(text, MoveInput(input, from, to), view, to, n) == []
  {
    PickedMoves(input, view, from, to);
    ManualLeaves(PickedRecords(input, view), n, from, to);
    ServicesLeave(text, input.leases, input.services, view, n, from, to);
  }

  lemma CoexistsMoves(rrs: seq<RR>, from: string, to: string)
    ensures Coexists(MoveRRs(rrs, from, to)) <==> Coexists(rrs)
  {
    var m := MoveRRs(rrs, from, to);
    if exists rr :: rr in rrs && rr.kind == "CNAME" {
      var rr :| rr in rrs && rr.kind == "CNAME";
      var i :| 0 <= i < |rrs| && rrs[i] == rr;
      assert m[i] in m;
    }
    if exists rr :: rr in m && rr.kind == "CNAME" {
      var rr :| rr in m && rr.kind == "CNAME";
      var i :| 0 <= i < |m| && m[i] == rr;
      assert rrs[i] in rrs;
    }
  }

  // The renamed configuration is accepted exactly when the old one was.
  lemma AcceptanceMoves(text: AddrText, input: Input, view: string, from: string, to: string)
    requires Renameable(input, from, to)
    ensures Accepts(text, MoveInput(input, from, to), view, to) <==> Accepts(text, input, view, from)
  {
    var moved := MoveInput(input, from, to);
    if Accepts(text, moved, view, to) {
      forall n ensures Coexists(Answer(text, input, view, from, n)) {
        if Settled(n, from, to) {
          ForwardAnswersMove(text, input, view, from, to, n);
          CoexistsMoves(Answer(text, input, view, from, n), from, to);
        } else {
          UnsettledIsSilent(text, input, view, from, to, n);
        }
      }
    }
    if Accepts(text, input, view, from) {
      forall n ensures Coexists(Answer(text, moved, view, to, n)) {
        if Inside(n, from) && !Inside(n, to) {
          OldNamesAreGone(text, input, view, from, to, n);
        } else {
          var was := if Inside(n, to) then Move(n, to, from) else n;
          if Inside(n, to) { MoveLands(n, to, from); MoveBack(n, to, from); }
          ForwardAnswersMove(text, input, view, from, to, was);
          CoexistsMoves(Answer(text, input, view, from, was), from, to);
        }
      }
    }
  }

  lemma {:induction false} ManualSettled(rs: seq<Record>, n: string, from: string, to: string)
    requires !Settled(n, from, to) && forall r :: r in rs ==> StoredRecord(r, from, to)
    ensures ManualAnswer(rs, n) == []
  {
    if rs != [] {
      ManualSettled(rs[..|rs| - 1], n, from, to);
      assert rs[|rs| - 1] in rs;
    }
  }

  // Nothing is stored at an unsettled name before the rename.
  lemma UnsettledIsSilent(text: AddrText, input: Input, view: string, from: string, to: string, n: string)
    requires Renameable(input, from, to) && !Settled(n, from, to)
    ensures Answer(text, input, view, from, n) == []
  {
    PickedMoves(input, view, from, to);
    ManualSettled(PickedRecords(input, view), n, from, to);
    forall s | s in input.services ensures HostsFollow(s, to, from) {
      assert HostsFollow(s, from, to);
    }
    ServicesLeave(text, input.leases, input.services, view, n, to, from);
  }
}
