/** The rename seen from outside: every question, moved, gets the old reply, moved, and
    behind a CNAME that already led into the new zone what is found there now. */
module RenamedReplies {
  import opened Wrappers
  import opened Net
  import opened Names
  import opened ZoneIndex
  import opened ZoneSnapshot
  import opened ZoneRename
  import opened RenamedAnswers
  import opened Chasing
  import Authoritative

  function MoveRec(r: Rec, from: string, to: string): Rec {
    match r
    case SOA(o) => SOA(Move(o, from, to))
    case NS(o, h) => NS(Move(o, from, to), Move(h, from, to))
    case PTR(o, t) => PTR(Move(o, from, to), Move(t, from, to))
    case CNAME(o, t) => CNAME(Move(o, from, to), Move(t, from, to))
    case Addr4(o, v) => Addr4(Move(o, from, to), v)
    case Addr6(o, v) => Addr6(Move(o, from, to), v)
  }

  function MoveRecs(rs: seq<Rec>, from: string, to: string): (m: seq<Rec>)
    ensures |m| == |rs| && forall i :: 0 <= i < |rs| ==> m[i] == MoveRec(rs[i], from, to)
  {
    seq(|rs|, i requires 0 <= i < |rs| => MoveRec(rs[i], from, to))
  }

  function MoveReply(r: Authoritative.Reply, from: string, to: string): Authoritative.Reply {
    Authoritative.Reply(r.nameError, MoveRecs(r.answer, from, to), MoveRecs(r.authority, from, to))
  }

  // ----- chases -----

  predicate Known(n: string, from: string, to: string) { Normal(n) && Settled(n, from, to) }

  predicate NormalTargets(rrs: seq<RR>) { forall rr :: rr in rrs && rr.kind == "CNAME" ==> Normal(rr.value) }

  // The second source is the first with every known name moved.
  ghost predicate MirrorsAt(src: Source, src2: Source, from: string, to: string, n: string) {
    && src2.owns(Move(n, from, to)) == src.owns(n)
    && src2.lookup(Move(n, from, to)) == MoveRRs(src.lookup(n), from, to)
    && NormalTargets(src.lookup(n))
  }

  // A name of the new zone alone is the second source's, which holds there what the first
  // holds at the same place of the old zone.
  ghost predicate OpensAt(src: Source, src2: Source, from: string, to: string, n: string) {
    && !src.owns(n) && src2.owns(n)
    && src2.lookup(n) == MoveRRs(src.lookup(Move(n, to, from)), from, to)
  }

  ghost predicate Mirrors(src: Source, src2: Source, from: string, to: string) {
    forall n :: Normal(n) ==>
      if Settled(n, from, to) then MirrorsAt(src, src2, from, to, n) else OpensAt(src, src2, from, to, n)
  }

  lemma MirrorsHere(src: Source, src2: Source, from: string, to: string, n: string)
    requires Mirrors(src, src2, from, to) && Normal(n)
    ensures Settled(n, from, to) ==> MirrorsAt(src, src2, from, to, n)
    ensures !Settled(n, from, to) ==> OpensAt(src, src2, from, to, n)
    ensures src.owns(n) ==> NormalTargets(src.lookup(n))
  {
  }

  lemma ToRRMoves(rr: RR, qtype: nat, from: string, to: string)
    ensures ToRR(MoveRR(rr, from, to), qtype) ==
      match ToRR(rr, qtype) case Some(r) => Some(MoveRec(r, from, to)) case None => None
  {
  }

  lemma {:induction false} ConvertMoves(rrs: seq<RR>, qtype: nat, from: string, to: string)
    ensures Convert(MoveRRs(rrs, from, to), qtype) == MoveRecs(Convert(rrs, qtype), from, to)
  {
    if rrs != [] {
      var k := |rrs| - 1;
      assert MoveRRs(rrs, from, to)[..k] == MoveRRs(rrs[..k], from, to);
      ConvertMoves(rrs[..k], qtype, from, to);
      ToRRMoves(rrs[k], qtype, from, to);
    }
  }

  lemma KnownMoves(n: string, from: string, to: string)
    requires IsZone(from) && IsZone(to) && Known(n, from, to)
    ensures Normal(Move(n, from, to)) && Fqdn(n) == n && Fqdn(Move(n, from, to)) == Move(n, from, to)
  {
    MoveKeepsNormal(n, from, to);
    NormalIsFixed(n);
    NormalIsFixed(Move(n, from, to));
  }

  // Where the first CNAME of a list leads.
  function FirstCNAME(next: seq<RR>): Option<string> {
    if next == [] then None else if next[0].kind == "CNAME" then Some(next[0].value) else FirstCNAME(next[1..])
  }

  // The target a chase ends at, and how deep.
  function Last(src: Source, target: string, qtype: nat, depth: nat): (string, nat)
    decreases CHASE_DEPTH - depth
  {
    if !FollowsOn(src, target, qtype, depth) then (target, depth)
    else match FirstCNAME(src.lookup(Fqdn(target)))
      case None => (target, depth)
      case Some(t) => Last(src, t, qtype, depth + 1)
  }

  // What a chase finds behind a target.
  function Behind(src: Source, target: string, qtype: nat, depth: nat): seq<Rec> {
    if FollowsOn(src, target, qtype, depth) then ChaseList(src, target, src.lookup(Fqdn(target)), qtype, depth) else []
  }

  // What the second source's chase adds where the first one's ended in the new zone.
  function Added(src: Source, src2: Source, target: string, qtype: nat, depth: nat, from: string,
                 to: string): seq<Rec> {
    var (t, d) := Last(src, target, qtype, depth);
    if Settled(t, from, to) then [] else Behind(src2, t, qtype, d)
  }

  // Of a list, what its first CNAME adds.
  function AddedIn(src: Source, src2: Source, next: seq<RR>, qtype: nat, depth: nat, from: string,
                   to: string): seq<Rec> {
    match FirstCNAME(next) case None => [] case Some(t) => Added(src, src2, t, qtype, depth + 1, from, to)
  }

  lemma AddedFollows(src: Source, src2: Source, target: string, qtype: nat, depth: nat, from: string, to: string)
    requires Settled(target, from, to)
    ensures Added(src, src2, target, qtype, depth, from, to) ==
      if FollowsOn(src, target, qtype, depth) then AddedIn(src, src2, src.lookup(Fqdn(target)), qtype, depth, from, to)
      else []
  {
  }

  lemma ChaseIs(src: Source, name: string, target: string, qtype: nat, depth: nat)
    ensures Chase(src, name, target, qtype, depth) == [CNAME(name, Fqdn(target))] + Behind(src, target, qtype, depth)
  {
  }

  lemma FirstMoves(r: Rec, rest: seq<Rec>, added: seq<Rec>, from: string, to: string)
    ensures [MoveRec(r, from, to)] + (MoveRecs(rest, from, to) + added) == MoveRecs([r] + rest, from, to) + added
  {
  }

  // The moved chase is the old one moved, and then what is added.
  lemma {:induction false} ChaseMoves(src: Source, src2: Source, name: string, target: string, qtype: nat, depth: nat,
                                      from: string, to: string)
    requires IsZone(from) && IsZone(to) && Mirrors(src, src2, from, to) && Normal(target)
    ensures Chase(src2, Move(name, from, to), Move(target, from, to), qtype, depth) ==
      MoveRecs(Chase(src, name, target, qtype, depth), from, to) + Added(src, src2, target, qtype, depth, from, to)
    decreases CHASE_DEPTH - depth, 2, 0
  {
    BehindMoves(src, src2, target, qtype, depth, from, to);
    HeadedMoves(src, src2, name, target, qtype, depth, Added(src, src2, target, qtype, depth, from, to), from, to);
  }

  lemma HeadedMoves(src: Source, src2: Source, name: string, target: string, qtype: nat, depth: nat, added: seq<Rec>,
                    from: string, to: string)
    requires IsZone(to) && Normal(target)
    requires Behind(src2, Move(target, from, to), qtype, depth) ==
      MoveRecs(Behind(src, target, qtype, depth), from, to) + added
    ensures Chase(src2, Move(name, from, to), Move(target, from, to), qtype, depth) ==
      MoveRecs(Chase(src, name, target, qtype, depth), from, to) + added
  {
    MovedIsNormal(target, from, to);
    var b, b2 := Behind(src, target, qtype, depth), Behind(src2, Move(target, from, to), qtype, depth);
    ChaseIs(src, name, target, qtype, depth);
    ChaseIs(src2, Move(name, from, to), Move(target, from, to), qtype, depth);
    FirstMoves(CNAME(name, target), b, added, from, to);
  }

  lemma MovedIsNormal(n: string, from: string, to: string)
    requires IsZone(to) && Normal(n)
    ensures Fqdn(n) == n && Fqdn(Move(n, from, to)) == Move(n, from, to)
  {
    MoveKeepsNormal(n, from, to);
    NormalIsFixed(n);
    NormalIsFixed(Move(n, from, to));
  }

  lemma {:induction false} BehindMoves(src: Source, src2: Source, target: string, qtype: nat, depth: nat, from: string,
                                       to: string)
    requires IsZone(from) && IsZone(to) && Mirrors(src, src2, from, to) && Normal(target)
    ensures Behind(src2, Move(target, from, to), qtype, depth) ==
      MoveRecs(Behind(src, target, qtype, depth), from, to) + Added(src, src2, target, qtype, depth, from, to)
    decreases CHASE_DEPTH - depth, 1, 0
  {
    MovedIsNormal(target, from, to);
    if !Settled(target, from, to) {
      BehindOpens(src, src2, target, qtype, depth, from, to);
    } else {
      MirrorsHere(src, src2, from, to, target);
      AddedFollows(src, src2, target, qtype, depth, from, to);
      if FollowsOn(src, target, qtype, depth) {
        ChaseListMoves(src, src2, target, src.lookup(target), qtype, depth, from, to);
      }
    }
  }

  lemma BehindOpens(src: Source, src2: Source, target: string, qtype: nat, depth: nat, from: string, to: string)
    requires IsZone(to) && Mirrors(src, src2, from, to) && Normal(target) && !Settled(target, from, to)
    ensures Behind(src2, Move(target, from, to), qtype, depth) ==
      MoveRecs(Behind(src, target, qtype, depth), from, to) + Added(src, src2, target, qtype, depth, from, to)
  {
    MirrorsHere(src, src2, from, to, target);
    assert Last(src, target, qtype, depth) == (target, depth);
  }

  lemma RestMoves(next: seq<RR>, from: string, to: string)
    requires next != []
    ensures MoveRRs(next, from, to)[1..] == MoveRRs(next[1..], from, to)
  {
  }

  lemma {:induction false} ChaseListMoves(src: Source, src2: Source, target: string, next: seq<RR>, qtype: nat,
                                          depth: nat, from: string, to: string)
    requires IsZone(from) && IsZone(to) && Mirrors(src, src2, from, to) && Normal(target)
    requires depth < CHASE_DEPTH && NormalTargets(next)
    ensures ChaseList(src2, Move(target, from, to), MoveRRs(next, from, to), qtype, depth) ==
      MoveRecs(ChaseList(src, target, next, qtype, depth), from, to) + AddedIn(src, src2, next, qtype, depth, from, to)
    decreases CHASE_DEPTH - depth, 0, |next|
  {
    if next != [] {
      assert next[0] in next;
      RestMoves(next, from, to);
      if next[0].kind == "CNAME" {
        MovedIsNormal(target, from, to);
        ChaseMoves(src, src2, target, next[0].value, qtype, depth + 1, from, to);
      } else {
        ChaseListMoves(src, src2, target, next[1..], qtype, depth, from, to);
        PlainFirstMoves(src, src2, target, next, qtype, depth, from, to);
      }
    }
  }

  lemma PlainFirstMoves(src: Source, src2: Source, target: string, next: seq<RR>, qtype: nat, depth: nat, from: string,
                        to: string)
    requires depth < CHASE_DEPTH && next != [] && next[0].kind != "CNAME"
    requires ChaseList(src2, Move(target, from, to), MoveRRs(next[1..], from, to), qtype, depth) ==
      MoveRecs(ChaseList(src, target, next[1..], qtype, depth), from, to)
        + AddedIn(src, src2, next[1..], qtype, depth, from, to)
    ensures ChaseList(src2, Move(target, from, to), MoveRRs(next, from, to), qtype, depth) ==
      MoveRecs(ChaseList(src, target, next, qtype, depth), from, to) + AddedIn(src, src2, next, qtype, depth, from, to)
  {
    RestMoves(next, from, to);
    ToRRMoves(next[0], qtype, from, to);
    var added := AddedIn(src, src2, next[1..], qtype, depth, from, to);
    assert AddedIn(src, src2, next, qtype, depth, from, to) == added;
    match ToRR(next[0], qtype)
    case Some(r) => FirstMoves(r, ChaseList(src, target, next[1..], qtype, depth), added, from, to);
    case None =>
  }

  // ----- when nothing is added -----

  // Of these records some answer a question of this type, or lead on.
  predicate Answers(rrs: seq<RR>, qtype: nat) {
    exists rr :: rr in rrs && (rr.kind == "CNAME" || ToRR(rr, qtype).Some?)
  }

  lemma {:induction false} ListAnswersExactly(src: Source, target: string, next: seq<RR>, qtype: nat, depth: nat)
    requires depth < CHASE_DEPTH
    ensures ChaseList(src, target, next, qtype, depth) != [] <==> Answers(next, qtype)
  {
    if next != [] {
      assert next == [next[0]] + next[1..];
      assert next[0] in next;
      if next[0].kind != "CNAME" { ListAnswersExactly(src, target, next[1..], qtype, depth); }
    }
  }

  lemma AnswersMove(rrs: seq<RR>, qtype: nat, from: string, to: string)
    ensures Answers(MoveRRs(rrs, from, to), qtype) <==> Answers(rrs, qtype)
  {
    var m := MoveRRs(rrs, from, to);
    forall i | 0 <= i < |rrs|
      ensures rrs[i] in rrs && m[i] in m && (ToRR(m[i], qtype).Some? <==> ToRR(rrs[i], qtype).Some?) {
      ToRRMoves(rrs[i], qtype, from, to);
    }
    if Answers(m, qtype) {
      var rr :| rr in m && (rr.kind == "CNAME" || ToRR(rr, qtype).Some?);
      var i :| 0 <= i < |m| && m[i] == rr;
      assert rrs[i] in rrs;
    }
    if Answers(rrs, qtype) {
      var rr :| rr in rrs && (rr.kind == "CNAME" || ToRR(rr, qtype).Some?);
      var i :| 0 <= i < |rrs| && rrs[i] == rr;
      assert m[i] in m;
    }
  }

  // The old chase ends at a name of the new zone, not for its depth nor for the type asked
  // for, and the old zone answers the question at the same place in it, or leads on there.
  predicate LeadsIn(src: Source, target: string, qtype: nat, from: string, to: string) {
    var (t, d) := Last(src, target, qtype, 0);
    !Settled(t, from, to) && d < CHASE_DEPTH && qtype != TYPE_CNAME && Answers(src.lookup(Move(t, to, from)), qtype)
  }

  lemma {:induction false} FirstIsOneOf(next: seq<RR>, p: string -> bool)
    requires forall rr :: rr in next && rr.kind == "CNAME" ==> p(rr.value)
    ensures FirstCNAME(next).Some? ==> p(FirstCNAME(next).value)
  {
    if next != [] {
      assert next[0] in next;
      FirstIsOneOf(next[1..], p);
    }
  }

  // What holds of a target, and of every target found at an own name it holds of, holds
  // of the last one.
  lemma {:induction false} LastIsOneOf(src: Source, p: string -> bool, target: string, qtype: nat, depth: nat)
    requires p(target) && forall n :: p(n) ==> Fqdn(n) == n
    requires forall n, rr :: p(n) && src.owns(n) && rr in src.lookup(n) && rr.kind == "CNAME" ==> p(rr.value)
    ensures p(Last(src, target, qtype, depth).0)
    decreases CHASE_DEPTH - depth
  {
    if FollowsOn(src, target, qtype, depth) {
      var first := FirstCNAME(src.lookup(target));
      FirstIsOneOf(src.lookup(target), p);
      if first.Some? { LastIsOneOf(src, p, first.value, qtype, depth + 1); }
    }
  }

  lemma LastIsNormal(src: Source, src2: Source, target: string, qtype: nat, depth: nat, from: string, to: string)
    requires Mirrors(src, src2, from, to) && Normal(target)
    ensures Normal(Last(src, target, qtype, depth).0)
  {
    var p := (n: string) => Normal(n);
    forall n | p(n) ensures Fqdn(n) == n { FqdnOfNormal(n); }
    forall n, rr | p(n) && src.owns(n) && rr in src.lookup(n) && rr.kind == "CNAME" ensures p(rr.value) {
      MirrorsHere(src, src2, from, to, n);
    }
    LastIsOneOf(src, p, target, qtype, depth);
  }

  lemma FqdnOfNormal(n: string)
    requires Normal(n)
    ensures Fqdn(n) == n
  {
    NormalIsFixed(n);
  }

  lemma AddsExactly(src: Source, src2: Source, target: string, qtype: nat, from: string, to: string)
    requires IsZone(from) && IsZone(to) && Mirrors(src, src2, from, to) && Normal(target)
    ensures Added(src, src2, target, qtype, 0, from, to) != [] <==> LeadsIn(src, target, qtype, from, to)
  {
    var (t, d) := Last(src, target, qtype, 0);
    LastIsNormal(src, src2, target, qtype, 0, from, to);
    if !Settled(t, from, to) {
      MirrorsHere(src, src2, from, to, t);
      BehindAnswersExactly(src2, t, qtype, d);
      AnswersMove(src.lookup(Move(t, to, from)), qtype, from, to);
    }
  }

  lemma BehindAnswersExactly(src: Source, target: string, qtype: nat, depth: nat)
    requires Normal(target) && src.owns(target)
    ensures Behind(src, target, qtype, depth) != [] <==>
      depth < CHASE_DEPTH && qtype != TYPE_CNAME && Answers(src.lookup(target), qtype)
  {
    FqdnOfNormal(target);
    if depth < CHASE_DEPTH { ListAnswersExactly(src, target, src.lookup(target), qtype, depth); }
  }

  // ----- the two nodes -----

  // The renamed configuration, built, beside the old one.
  ghost predicate Renamed(snap: Snapshot, snap2: Snapshot, text: AddrText, input: Input, names: seq<string>,
                          from: string, to: string) {
    && Renameable(input, from, to)
    && Built(snap, text, input, names) && snap.zone == from
    && Built(snap2, text, MoveInput(input, from, to), names) && snap2.zone == to
  }

  lemma {:induction false} ManualTargetsNormal(rs: seq<Record>, n: string)
    requires forall r :: r in rs && r.kind == "CNAME" ==> Normal(r.value)
    ensures NormalTargets(ManualAnswer(rs, n))
  {
    if rs != [] {
      ManualTargetsNormal(rs[..|rs| - 1], n);
      assert rs[|rs| - 1] in rs;
    }
  }

  lemma AnswerTargetsNormal(text: AddrText, input: Input, view: string, zone: string, n: string)
    requires forall r :: r in input.records && r.kind == "CNAME" ==> Normal(r.value)
    ensures NormalTargets(Answer(text, input, view, zone, n))
  {
    PickedMoves(input, view, zone, zone);
    ManualTargetsNormal(PickedRecords(input, view), n);
    ServiceIsPlain(text, input.leases, input.services, view, zone, n);
  }

  lemma OwnsMoves(zones: seq<Prefix>, n: string, from: string, to: string)
    requires ForwardZone(from) && ForwardZone(to) && Known(n, from, to)
    ensures Authoritative.Owns(Authoritative.Scope(to, zones), Move(n, from, to)) ==
      Authoritative.Owns(Authoritative.Scope(from, zones), n)
  {
    KnownMoves(n, from, to);
    if Inside(n, from) {
      MoveLands(n, from, to);
    }
  }

  lemma SourcesMirror(snap: Snapshot, snap2: Snapshot, text: AddrText, input: Input, names: seq<string>,
                      zones: seq<Prefix>, view: string, from: string, to: string)
    requires Renamed(snap, snap2, text, input, names, from, to)
    ensures Mirrors(Authoritative.SourceOf(Authoritative.Scope(from, zones), snap, view),
                    Authoritative.SourceOf(Authoritative.Scope(to, zones), snap2, view), from, to)
  {
    var src := Authoritative.SourceOf(Authoritative.Scope(from, zones), snap, view);
    var src2 := Authoritative.SourceOf(Authoritative.Scope(to, zones), snap2, view);
    forall n | Normal(n)
      ensures if Settled(n, from, to) then MirrorsAt(src, src2, from, to, n) else OpensAt(src, src2, from, to, n) {
      if Settled(n, from, to) {
        OwnsMoves(zones, n, from, to);
        LookupMoves(snap, snap2, text, input, names, view, n, from, to);
        LookupFollowsTheRule(snap, text, input, names, view, n);
        AnswerTargetsNormal(text, input, Effective(names, view), from, n);
      } else {
        NewNameOpens(snap, snap2, text, input, names, zones, view, n, from, to);
      }
    }
  }

  lemma NewNameOpens(snap: Snapshot, snap2: Snapshot, text: AddrText, input: Input, names: seq<string>,
                     zones: seq<Prefix>, view: string, n: string, from: string, to: string)
    requires Renamed(snap, snap2, text, input, names, from, to) && Normal(n) && !Settled(n, from, to)
    ensures OpensAt(Authoritative.SourceOf(Authoritative.Scope(from, zones), snap, view),
                    Authoritative.SourceOf(Authoritative.Scope(to, zones), snap2, view), from, to, n)
  {
    NewNameIsOwned(zones, n, from, to);
    NewNameHolds(snap, snap2, text, input, names, view, n, from, to);
  }

  lemma NewNameIsOwned(zones: seq<Prefix>, n: string, from: string, to: string)
    requires ForwardZone(from) && ForwardZone(to) && Normal(n) && !Settled(n, from, to)
    ensures !Authoritative.Owns(Authoritative.Scope(from, zones), n)
    ensures Authoritative.Owns(Authoritative.Scope(to, zones), n)
  {
    NormalIsFixed(n);
    if EndsWith(n, ".in-addr.arpa.") { ApartIsOutside(n, to, ".in-addr.arpa."); }
    if EndsWith(n, ".ip6.arpa.") { ApartIsOutside(n, to, ".ip6.arpa."); }
  }

  lemma NewNameHolds(snap: Snapshot, snap2: Snapshot, text: AddrText, input: Input, names: seq<string>, view: string,
                     n: string, from: string, to: string)
    requires Renamed(snap, snap2, text, input, names, from, to) && Normal(n) && !Settled(n, from, to)
    ensures Lookup(snap2, view, n) == MoveRRs(Lookup(snap, view, Move(n, to, from)), from, to)
  {
    MoveLands(n, to, from);
    MoveBack(n, to, from);
    MoveKeepsNormal(n, to, from);
    LookupMoves(snap, snap2, text, input, names, view, Move(n, to, from), from, to);
  }

  lemma LookupMoves(snap: Snapshot, snap2: Snapshot, text: AddrText, input: Input, names: seq<string>, view: string,
                    n: string, from: string, to: string)
    requires Renamed(snap, snap2, text, input, names, from, to) && Known(n, from, to)
    ensures Lookup(snap2, view, Move(n, from, to)) == MoveRRs(Lookup(snap, view, n), from, to)
  {
    KnownMoves(n, from, to);
    LookupFollowsTheRule(snap, text, input, names, view, n);
    LookupFollowsTheRule(snap2, text, MoveInput(input, from, to), names, view, Move(n, from, to));
    ForwardAnswersMove(text, input, Effective(names, view), from, to, n);
  }

  // ----- reverse targets -----

  predicate Dotted(t: Option<string>) { t.Some? ==> EndsWith(t.value, ".") }

  lemma QualifiedIsDotted(host: string, zone: string)
    requires IsZone(zone)
    ensures EndsWith(Qualify(host, zone), ".")
  {
    var n := Lower(TrimSuffix(host, "."));
    NormalIsFixed(zone);
    assert (n + ".")[|n|..] == ".";
    assert (n + "." + zone)[|n + "." + zone| - 1..] == zone[|zone| - 1..];
  }

  lemma {:induction false} TargetIsDotted(text: AddrText, zones: seq<Prefix>, leases: seq<Lease>, svcs: seq<Service>,
                                          rs: seq<Record>, view: string, zone: string, key: string)
    requires IsZone(zone) && forall r :: r in rs && r.kind == "PTR" ==> Normal(r.value)
    ensures Dotted(Reverse(text, zones, leases, svcs, rs, view, zone, key))
    decreases |rs|, |svcs|, |leases|
  {
    if rs != [] {
      assert rs[|rs| - 1] in rs;
      if rs[|rs| - 1].kind == "PTR" { NormalIsFixed(rs[|rs| - 1].value); }
      TargetIsDotted(text, zones, leases, svcs, rs[..|rs| - 1], view, zone, key);
    } else if svcs != [] {
      QualifiedIsDotted(svcs[|svcs| - 1].name, zone);
      TargetIsDotted(text, zones, leases, svcs[..|svcs| - 1], [], view, zone, key);
    } else if leases != [] {
      QualifiedIsDotted(leases[|leases| - 1].hostname, zone);
      TargetIsDotted(text, zones, leases[..|leases| - 1], [], [], view, zone, key);
    }
  }

  lemma PTRMoves(snap: Snapshot, snap2: Snapshot, text: AddrText, input: Input, names: seq<string>, view: string,
                 n: string, from: string, to: string)
    requires Renamed(snap, snap2, text, input, names, from, to) && Known(n, from, to)
    ensures var t, t2 := LookupPTR(snap, view, n), LookupPTR(snap2, view, Move(n, from, to));
      && (t == "" <==> t2 == "")
      && (t != "" ==> Fqdn(t) == t && t2 == Move(t, from, to) && Fqdn(t2) == t2)
  {
    KnownMoves(n, from, to);
    var v := Effective(names, view);
    LookupFollowsTheRule(snap, text, input, names, view, n);
    LookupFollowsTheRule(snap2, text, MoveInput(input, from, to), names, view, Move(n, from, to));
    ReverseAnswersMove(text, input, v, from, to, n);
    PickedMoves(input, v, from, to);
    TargetIsDotted(text, input.reverseZones, input.leases, input.services, PickedRecords(input, v), v, from, n);
    var t := LookupPTR(snap, view, n);
    if t != "" { MoveIsDotted(t, from, to); }
  }

  lemma MoveIsDotted(t: string, from: string, to: string)
    requires IsZone(to) && EndsWith(t, ".")
    ensures EndsWith(Move(t, from, to), ".") && Move(t, from, to) != ""
  {
    if Inside(t, from) {
      var p := t[..|t| - |from|];
      NormalIsFixed(to);
      assert (p + to)[|p + to| - 1..] == to[|to| - 1..];
    }
  }

  // ----- replies -----

  lemma ApexMoves(n: string, from: string, to: string)
    requires IsZone(from) && IsZone(to) && Settled(n, from, to)
    ensures n == from <==> Move(n, from, to) == to
    ensures Move(from, from, to) == to && Move("ns." + from, from, to) == "ns." + to
  {
    assert from[..0] + to == to;
    PrefixedIsInside("", to);
    PrefixedIsInside("", from);
    assert "" + from == from && "" + to == to;
    if Move(n, from, to) == to { MoveIsInjective(n, from, from, to); }
    PrefixedIsInside("ns.", from);
    EndsWithOwn("ns.", from);
  }

  lemma ApexReplyMoves(src: Source, src2: Source, target: string, target2: string, qtype: nat, from: string, to: string)
    requires IsZone(from) && IsZone(to)
    ensures Authoritative.Compose(to, src2, target2, to, qtype)
         == MoveReply(Authoritative.Compose(from, src, target, from, qtype), from, to)
  {
    SOAMoves(from, to);
    NSMoves(from, to);
  }

  lemma SOAMoves(from: string, to: string)
    requires IsZone(from) && IsZone(to)
    ensures MoveRecs([SOA(from)], from, to) == [SOA(to)] && MoveRecs([], from, to) == []
  {
    ApexMoves(from, from, to);
  }

  lemma NSMoves(from: string, to: string)
    requires IsZone(from) && IsZone(to)
    ensures MoveRecs([NS(from, "ns." + from)], from, to) == [NS(to, "ns." + to)]
  {
    ApexMoves(from, from, to);
  }

  lemma PTRReplyMoves(src: Source, src2: Source, target: string, target2: string, n: string, from: string, to: string)
    requires IsZone(from) && IsZone(to) && n != from && Move(n, from, to) != to
    requires (target == "" <==> target2 == "")
    requires target != "" ==> Fqdn(target) == target && target2 == Move(target, from, to) && Fqdn(target2) == target2
    ensures Authoritative.Compose(to, src2, target2, Move(n, from, to), TYPE_PTR)
         == MoveReply(Authoritative.Compose(from, src, target, n, TYPE_PTR), from, to)
  {
    SOAMoves(from, to);
    assert MoveRecs([PTR(n, target)], from, to) == [PTR(Move(n, from, to), Move(target, from, to))];
  }

  // What the moved question gains over the old one.
  function Gained(src: Source, src2: Source, n: string, qtype: nat, from: string, to: string): seq<Rec> {
    var rrs := src.lookup(n);
    if n != from && qtype != TYPE_PTR && rrs != [] && rrs[0].kind == "CNAME"
    then Added(src, src2, rrs[0].value, qtype, 0, from, to) else []
  }

  function WithGain(r: Authoritative.Reply, gained: seq<Rec>): Authoritative.Reply { r.(answer := r.answer + gained) }

  lemma NoGain(r: Authoritative.Reply, gained: seq<Rec>)
    ensures WithGain(r, gained) == r <==> gained == []
  {
    if gained == [] { assert r.answer + gained == r.answer; } else { assert |r.answer + gained| > |r.answer|; }
  }

  lemma CNAMEReplyMoves(src: Source, src2: Source, target: string, target2: string, n: string, qtype: nat, from: string,
                        to: string)
    requires IsZone(from) && IsZone(to) && Mirrors(src, src2, from, to) && Known(n, from, to)
    requires n != from && Move(n, from, to) != to && qtype != TYPE_PTR
    requires src.lookup(n) != [] && src.lookup(n)[0].kind == "CNAME"
    ensures Authoritative.Compose(to, src2, target2, Move(n, from, to), qtype)
         == WithGain(MoveReply(Authoritative.Compose(from, src, target, n, qtype), from, to),
                     Gained(src, src2, n, qtype, from, to))
  {
    MirrorsHere(src, src2, from, to, n);
    var rrs := src.lookup(n);
    assert rrs[0] in rrs;
    ChaseMoves(src, src2, n, rrs[0].value, qtype, 0, from, to);
    assert MoveRecs([], from, to) == [];
  }

  lemma PlainReplyMoves(src: Source, src2: Source, target: string, target2: string, n: string, qtype: nat, from: string,
                        to: string)
    requires IsZone(from) && IsZone(to) && Mirrors(src, src2, from, to) && Known(n, from, to)
    requires n != from && Move(n, from, to) != to && qtype != TYPE_PTR
    requires src.lookup(n) == [] || src.lookup(n)[0].kind != "CNAME"
    ensures Authoritative.Compose(to, src2, target2, Move(n, from, to), qtype)
         == MoveReply(Authoritative.Compose(from, src, target, n, qtype), from, to)
  {
    SOAMoves(from, to);
    MirrorsHere(src, src2, from, to, n);
    ConvertMoves(src.lookup(n), qtype, from, to);
  }

  lemma ComposedMoves(src: Source, src2: Source, target: string, target2: string, n: string, qtype: nat, from: string,
                      to: string)
    requires IsZone(from) && IsZone(to) && Mirrors(src, src2, from, to) && Known(n, from, to)
    requires (target == "" <==> target2 == "")
    requires target != "" ==> Fqdn(target) == target && target2 == Move(target, from, to) && Fqdn(target2) == target2
    ensures Authoritative.Compose(to, src2, target2, Move(n, from, to), qtype)
         == WithGain(MoveReply(Authoritative.Compose(from, src, target, n, qtype), from, to),
                     Gained(src, src2, n, qtype, from, to))
  {
    ApexMoves(n, from, to);
    if n != from && qtype != TYPE_PTR && src.lookup(n) != [] && src.lookup(n)[0].kind == "CNAME" {
      CNAMEReplyMoves(src, src2, target, target2, n, qtype, from, to);
    } else {
      NoGain(MoveReply(Authoritative.Compose(from, src, target, n, qtype), from, to), []);
      GainlessMoves(src, src2, target, target2, n, qtype, from, to);
    }
  }

  lemma GainlessMoves(src: Source, src2: Source, target: string, target2: string, n: string, qtype: nat, from: string,
                      to: string)
    requires IsZone(from) && IsZone(to) && Mirrors(src, src2, from, to) && Known(n, from, to)
    requires (target == "" <==> target2 == "")
    requires target != "" ==> Fqdn(target) == target && target2 == Move(target, from, to) && Fqdn(target2) == target2
    requires n == from || qtype == TYPE_PTR || src.lookup(n) == [] || src.lookup(n)[0].kind != "CNAME"
    ensures Authoritative.Compose(to, src2, target2, Move(n, from, to), qtype)
         == MoveReply(Authoritative.Compose(from, src, target, n, qtype), from, to)
  {
    ApexMoves(n, from, to);
    if n == from {
      ApexReplyMoves(src, src2, target, target2, qtype, from, to);
    } else if qtype == TYPE_PTR {
      PTRReplyMoves(src, src2, target, target2, n, from, to);
    } else {
      PlainReplyMoves(src, src2, target, target2, n, qtype, from, to);
    }
  }

  // A question about a name of the old zone, or about a name outside both, asked of
  // the renamed node at its moved name, gets the old reply with every name moved, and
  // behind it what a chain that already led into the new zone finds there now.
  lemma RepliesMove(snap: Snapshot, snap2: Snapshot, text: AddrText, input: Input, names: seq<string>,
                    zones: seq<Prefix>, view: string, n: string, qtype: nat, from: string, to: string)
    requires Renamed(snap, snap2, text, input, names, from, to) && Known(n, from, to)
    ensures var src := Authoritative.SourceOf(Authoritative.Scope(from, zones), snap, view);
      var src2 := Authoritative.SourceOf(Authoritative.Scope(to, zones), snap2, view);
      var before := Authoritative.ReplyTo(Authoritative.Scope(from, zones), snap, view, n, qtype);
      var after := Authoritative.ReplyTo(Authoritative.Scope(to, zones), snap2, view, Move(n, from, to), qtype);
      after == match before
        case Some(r) => Some(WithGain(MoveReply(r, from, to), Gained(src, src2, n, qtype, from, to)))
        case None => None
  {
    KnownMoves(n, from, to);
    OwnsMoves(zones, n, from, to);
    PTRMoves(snap, snap2, text, input, names, view, n, from, to);
    SourcesMirror(snap, snap2, text, input, names, zones, view, from, to);
    ComposedMoves(Authoritative.SourceOf(Authoritative.Scope(from, zones), snap, view),
                  Authoritative.SourceOf(Authoritative.Scope(to, zones), snap2, view),
                  LookupPTR(snap, view, n), LookupPTR(snap2, view, Move(n, from, to)), n, qtype, from, to);
  }

  // Does the old reply stop at a CNAME into the new zone behind which there is something?
  predicate Gains(src: Source, n: string, qtype: nat, from: string, to: string) {
    var rrs := src.lookup(n);
    && src.owns(n) && n != from && qtype != TYPE_PTR && rrs != [] && rrs[0].kind == "CNAME"
    && LeadsIn(src, rrs[0].value, qtype, from, to)
  }

  // The reply is the old one moved, and no more, exactly when the old chain does not end,
  // uncut, at a name of the new zone at whose place the old zone answers the question.
  lemma RepliesMoveExactly(snap: Snapshot, snap2: Snapshot, text: AddrText, input: Input, names: seq<string>,
                           zones: seq<Prefix>, view: string, n: string, qtype: nat, from: string, to: string)
    requires Renamed(snap, snap2, text, input, names, from, to) && Known(n, from, to)
    ensures var src := Authoritative.SourceOf(Authoritative.Scope(from, zones), snap, view);
      var before := Authoritative.ReplyTo(Authoritative.Scope(from, zones), snap, view, n, qtype);
      var after := Authoritative.ReplyTo(Authoritative.Scope(to, zones), snap2, view, Move(n, from, to), qtype);
      (after == match before case Some(r) => Some(MoveReply(r, from, to)) case None => None) <==>
        !Gains(src, n, qtype, from, to)
  {
    var src := Authoritative.SourceOf(Authoritative.Scope(from, zones), snap, view);
    var src2 := Authoritative.SourceOf(Authoritative.Scope(to, zones), snap2, view);
    var before := Authoritative.ReplyTo(Authoritative.Scope(from, zones), snap, view, n, qtype);
    RepliesMove(snap, snap2, text, input, names, zones, view, n, qtype, from, to);
    SourcesMirror(snap, snap2, text, input, names, zones, view, from, to);
    GainsExactly(src, src2, n, qtype, from, to);
    KnownMoves(n, from, to);
    if before.Some? { NoGain(MoveReply(before.value, from, to), Gained(src, src2, n, qtype, from, to)); }
  }

  lemma GainsExactly(src: Source, src2: Source, n: string, qtype: nat, from: string, to: string)
    requires IsZone(from) && IsZone(to) && Mirrors(src, src2, from, to) && Known(n, from, to)
    ensures src.owns(n) ==> (Gained(src, src2, n, qtype, from, to) != [] <==> Gains(src, n, qtype, from, to))
  {
    var rrs := src.lookup(n);
    if rrs != [] && rrs[0].kind == "CNAME" {
      TargetIsNormal(src, src2, n, from, to);
      AddsExactly(src, src2, rrs[0].value, qtype, from, to);
    }
  }

  lemma TargetIsNormal(src: Source, src2: Source, n: string, from: string, to: string)
    requires Mirrors(src, src2, from, to) && Known(n, from, to)
    requires src.lookup(n) != [] && src.lookup(n)[0].kind == "CNAME"
    ensures Normal(src.lookup(n)[0].value)
  {
    MirrorsHere(src, src2, from, to, n);
    assert src.lookup(n)[0] in src.lookup(n);
  }

  // ----- a name that gains -----

  // A CNAME at www to where app will be after the move, and an address at app.
  function Pointing(www: string, app: string, value: string, from: string, to: string): Input {
    Input([], [Record(www, "CNAME", Move(app, from, to), ""), Record(app, "A", value, "")], [], [])
  }

  predicate PointsAhead(www: string, app: string, from: string, to: string) {
    && Normal(www) && Normal(app) && www != app && Inside(www, from) && Inside(app, from)
    && www != from && !Inside(Move(app, from, to), from)
  }

  lemma PickedBoth(a: Record, b: Record)
    requires a.view == "" && b.view == ""
    ensures Pick("", RecordTag(), [a, b]) == [a, b]
  {
    assert [a, b][..|[a, b]| - 1] == [a] && [a][..|[a]| - 1] == [];
    assert Tagged("", RecordTag(), [a]) == [a];
  }

  lemma AnswerOfTwo(a: Record, b: Record, name: string)
    requires a.kind != "PTR" && b.kind != "PTR"
    ensures ManualAnswer([a, b], name) == ManualAnswer([a], name) + ManualAnswer([b], name)
  {
    assert [a, b][..|[a, b]| - 1] == [a];
    AnswerOfOne(b, name);
  }

  lemma TwoRecordsAnswer(text: AddrText, a: Record, b: Record, zone: string, name: string)
    requires a.view == "" && b.view == "" && a.kind != "PTR" && b.kind != "PTR" && Lower(a.name) != Lower(b.name)
    requires name == Lower(a.name) || name == Lower(b.name)
    ensures Answer(text, Input([], [a, b], [], []), "", zone, name) ==
      if name == Lower(a.name) then [RR(name, a.kind, Lower(a.value))] else [RR(name, b.kind, Lower(b.value))]
  {
    PickedBoth(a, b);
    AnswerOfTwo(a, b, name);
    AnswerOfOne(a, name);
    AnswerOfOne(b, name);
  }

  // What the old snapshot holds at the two names.
  lemma PointingHolds(snap: Snapshot, text: AddrText, www: string, app: string, value: string, from: string, to: string)
    requires IsZone(from) && IsZone(to) && PointsAhead(www, app, from, to)
    requires Built(snap, text, Pointing(www, app, value, from, to), []) && snap.zone == from
    ensures Lookup(snap, "", www) == [RR(www, "CNAME", Move(app, from, to))]
    ensures Lookup(snap, "", app) == [RR(app, "A", Lower(value))]
  {
    var input := Pointing(www, app, value, from, to);
    var a, b := Record(www, "CNAME", Move(app, from, to), ""), Record(app, "A", value, "");
    MoveKeepsNormal(app, from, to);
    LookupFollowsTheRule(snap, text, input, [], "", www);
    LookupFollowsTheRule(snap, text, input, [], "", app);
    TwoRecordsAnswer(text, a, b, from, www);
    TwoRecordsAnswer(text, a, b, from, app);
  }

  lemma AheadIsUnsettled(www: string, app: string, from: string, to: string)
    requires IsZone(from) && IsZone(to) && PointsAhead(www, app, from, to)
    ensures Normal(Move(app, from, to)) && !Settled(Move(app, from, to), from, to)
    ensures Move(Move(app, from, to), to, from) == app && Lower(Fqdn(www)) == www
  {
    MoveKeepsNormal(app, from, to);
    MoveBack(app, from, to);
    MoveLands(app, from, to);
    NormalIsFixed(www);
  }

  lemma ReplyAtCNAME(src: Source, ptr: string, www: string, target: string, zone: string)
    requires www != zone && src.lookup(www) == [RR(www, "CNAME", target)] && Normal(target) && !src.owns(target)
    ensures Authoritative.Compose(zone, src, ptr, www, TYPE_A) == Authoritative.Reply(false, [CNAME(www, target)], [])
  {
    OutsideChase(src, www, target);
  }

  lemma OwnNameIsAnswered(scope: Authoritative.Scope, snap: Snapshot, n: string, qtype: nat)
    requires Lower(Fqdn(n)) == n && Inside(n, scope.zone) && scope.zone != ""
    ensures Authoritative.ReplyTo(scope, snap, "", n, qtype)
         == Some(Authoritative.Compose(scope.zone, Authoritative.SourceOf(scope, snap, ""), LookupPTR(snap, "", n), n,
                                       qtype))
  {
  }

  lemma OldReply(snap: Snapshot, text: AddrText, zones: seq<Prefix>, www: string, app: string, value: string,
                 from: string, to: string)
    requires ForwardZone(from) && ForwardZone(to) && PointsAhead(www, app, from, to)
    requires Built(snap, text, Pointing(www, app, value, from, to), []) && snap.zone == from
    ensures Authoritative.ReplyTo(Authoritative.Scope(from, zones), snap, "", www, TYPE_A)
         == Some(Authoritative.Reply(false, [CNAME(www, Move(app, from, to))], []))
  {
    var scope, t := Authoritative.Scope(from, zones), Move(app, from, to);
    PointingHolds(snap, text, www, app, value, from, to);
    AheadIsUnsettled(www, app, from, to);
    NewNameIsOwned(zones, t, from, to);
    OwnNameIsAnswered(scope, snap, www, TYPE_A);
    ReplyAtCNAME(Authoritative.SourceOf(scope, snap, ""), LookupPTR(snap, "", www), www, t, from);
  }

  // The input: asked for the address of www, the old node answers with the CNAME alone,
  // which leads out of its zone, and the renamed one with the address behind it too.
  lemma NewZoneTargetGains(snap: Snapshot, snap2: Snapshot, text: AddrText, zones: seq<Prefix>, www: string,
                           app: string,
                           value: string, from: string, to: string)
    requires PointsAhead(www, app, from, to)
    requires Renamed(snap, snap2, text, Pointing(www, app, value, from, to), [], from, to)
    ensures var t := Move(app, from, to);
      && Authoritative.ReplyTo(Authoritative.Scope(from, zones), snap, "", www, TYPE_A)
         == Some(Authoritative.Reply(false, [CNAME(www, t)], []))
      && Authoritative.ReplyTo(Authoritative.Scope(to, zones), snap2, "", Move(www, from, to), TYPE_A)
         == Some(Authoritative.Reply(false, [CNAME(Move(www, from, to), t), Addr4(t, Lower(value))], []))
  {
    var input, t := Pointing(www, app, value, from, to), Move(app, from, to);
    OldReply(snap, text, zones, www, app, value, from, to);
    RepliesMove(snap, snap2, text, input, [], zones, "", www, TYPE_A, from, to);
    GainAtCNAME(snap, snap2, text, zones, www, app, value, from, to);
    GainedReply(www, app, value, from, to);
  }

  lemma GainedReply(www: string, app: string, value: string, from: string, to: string)
    requires IsZone(from) && IsZone(to) && PointsAhead(www, app, from, to)
    ensures var t := Move(app, from, to);
      WithGain(MoveReply(Authoritative.Reply(false, [CNAME(www, t)], []), from, to), [Addr4(t, Lower(value))])
        == Authoritative.Reply(false, [CNAME(Move(www, from, to), t), Addr4(t, Lower(value))], [])
  {
    var t := Move(app, from, to);
    assert Move(t, from, to) == t;
    assert MoveRecs([CNAME(www, t)], from, to) == [CNAME(Move(www, from, to), t)] && MoveRecs([], from, to) == [];
  }

  lemma GainAtCNAME(snap: Snapshot, snap2: Snapshot, text: AddrText, zones: seq<Prefix>, www: string, app: string,
                    value: string, from: string, to: string)
    requires PointsAhead(www, app, from, to)
    requires Renamed(snap, snap2, text, Pointing(www, app, value, from, to), [], from, to)
    ensures Gained(Authoritative.SourceOf(Authoritative.Scope(from, zones), snap, ""),
                   Authoritative.SourceOf(Authoritative.Scope(to, zones), snap2, ""), www, TYPE_A, from, to)
         == [Addr4(Move(app, from, to), Lower(value))]
  {
    var input, t := Pointing(www, app, value, from, to), Move(app, from, to);
    PointingHolds(snap, text, www, app, value, from, to);
    AheadIsUnsettled(www, app, from, to);
    NewNameOpens(snap, snap2, text, input, [], zones, "", t, from, to);
    GainAt(Authoritative.SourceOf(Authoritative.Scope(from, zones), snap, ""),
           Authoritative.SourceOf(Authoritative.Scope(to, zones), snap2, ""), www, app, value, from, to);
  }

  lemma GainAt(src: Source, src2: Source, www: string, app: string, value: string, from: string, to: string)
    requires IsZone(from) && IsZone(to) && PointsAhead(www, app, from, to)
    requires OpensAt(src, src2, from, to, Move(app, from, to))
    requires src.lookup(www) == [RR(www, "CNAME", Move(app, from, to))]
      && src.lookup(app) == [RR(app, "A", Lower(value))]
    ensures Gained(src, src2, www, TYPE_A, from, to) == [Addr4(Move(app, from, to), Lower(value))]
  {
    AheadIsUnsettled(www, app, from, to);
    GainIsBehind(src, src2, www, Move(app, from, to), from, to);
    OneAddressBehind(src2, Move(app, from, to), app, value, from, to);
  }

  lemma GainIsBehind(src: Source, src2: Source, www: string, target: string, from: string, to: string)
    requires src.lookup(www) == [RR(www, "CNAME", target)] && www != from
    requires Normal(target) && !Settled(target, from, to) && !src.owns(target)
    ensures Gained(src, src2, www, TYPE_A, from, to) == Behind(src2, target, TYPE_A, 0)
  {
    OutsideChase(src, www, target);
  }

  // A chase of a name that is not ours is the CNAME alone.
  lemma OutsideChase(src: Source, name: string, target: string)
    requires Normal(target) && !src.owns(target)
    ensures Chase(src, name, target, TYPE_A, 0) == [CNAME(name, target)] && Last(src, target, TYPE_A, 0) == (target, 0)
  {
    NormalIsFixed(target);
  }

  lemma OneAddressBehind(src: Source, target: string, app: string, value: string, from: string, to: string)
    requires Normal(target) && src.owns(target) && Inside(app, from) && target == Move(app, from, to)
    requires src.lookup(target) == MoveRRs([RR(app, "A", Lower(value))], from, to)
    ensures Behind(src, target, TYPE_A, 0) == [Addr4(target, Lower(value))]
  {
    NormalIsFixed(target);
    var next := src.lookup(target);
    assert next == [RR(target, "A", Lower(value))] && next[1..] == [];
    assert ChaseList(src, target, next[1..], TYPE_A, 0) == [];
  }
}
