/** Following CNAMEs, against any way of telling which names are ours and what they
    hold. */
module Chasing {
  import opened Wrappers
  import opened Names
  import opened ZoneIndex
  import opened ZoneSnapshot

  const CHASE_DEPTH := 8

  const TYPE_A := 1
  const TYPE_NS := 2
  const TYPE_CNAME := 5
  const TYPE_SOA := 6
  const TYPE_PTR := 12
  const TYPE_AAAA := 28
  const TYPE_ANY := 255

  datatype Rec =
    | SOA(owner: string)
    | NS(owner: string, host: string)
    | PTR(owner: string, target: string)
    | CNAME(owner: string, target: string)
    | Addr4(owner: string, value: string)
    | Addr6(owner: string, value: string)

  // The record as an answer to a question of this type, if it is one.
  function ToRR(rr: RR, qtype: nat): Option<Rec> {
    if rr.kind == "A" && (qtype == TYPE_A || qtype == TYPE_ANY) then Some(Addr4(rr.name, rr.value))
    else if rr.kind == "AAAA" && (qtype == TYPE_AAAA || qtype == TYPE_ANY) then Some(Addr6(rr.name, rr.value))
    else None
  }

  function Convert(rrs: seq<RR>, qtype: nat): seq<Rec> {
    if rrs == [] then []
    else
      var rest := Convert(rrs[..|rrs| - 1], qtype);
      match ToRR(rrs[|rrs| - 1], qtype) case Some(r) => rest + [r] case None => rest
  }

  // What a chase consults: whether a name is ours, and the records at a name.
  datatype Source = Source(owns: string -> bool, lookup: string -> seq<RR>)

  predicate DotBlind(src: Source, t: string) { src.owns(Fqdn(t)) == src.owns(t) }

  ghost predicate OrderlyAt(src: Source, n: string) { WellFormed(src.lookup(n), Lower(n)) }

  // Names do not care about the trailing dot, and every name is well formed.
  ghost predicate Orderly(src: Source) {
    (forall t :: DotBlind(src, t)) && (forall n :: OrderlyAt(src, n))
  }

  // One CNAME, and whatever its target leads to.
  function Chase(src: Source, name: string, target: string, qtype: nat, depth: nat): seq<Rec>
    decreases CHASE_DEPTH - depth, 0, 0
  {
    var cname := CNAME(name, Fqdn(target));
    if depth >= CHASE_DEPTH || qtype == TYPE_CNAME || !src.owns(target) then [cname]
    else [cname] + ChaseList(src, target, src.lookup(Fqdn(target)), qtype, depth)
  }

  // The records at the target in order, up to the first CNAME, which is followed.
  function ChaseList(src: Source, target: string, next: seq<RR>, qtype: nat, depth: nat): seq<Rec>
    requires depth < CHASE_DEPTH
    decreases CHASE_DEPTH - depth - 1, 1, |next|
  {
    if next == [] then []
    else if next[0].kind == "CNAME" then Chase(src, Fqdn(target), next[0].value, qtype, depth + 1)
    else
      var rest := ChaseList(src, target, next[1..], qtype, depth);
      match ToRR(next[0], qtype) case Some(r) => [r] + rest case None => rest
  }

  predicate AsksFor(qtype: nat, r: Rec) {
    (r.Addr4? && (qtype == TYPE_A || qtype == TYPE_ANY)) || (r.Addr6? && (qtype == TYPE_AAAA || qtype == TYPE_ANY))
  }

  // k CNAMEs, each owned by the one before's target and taken from the snapshot, and
  // after them the last target's addresses of the asked type.
  ghost predicate Chain(src: Source, name: string, target: string, qtype: nat, recs: seq<Rec>, k: nat) {
    && 1 <= k <= |recs|
    && (forall i :: 0 <= i < k ==> recs[i].CNAME?)
    && recs[0] == CNAME(name, Fqdn(target))
    && (forall i :: 0 < i < k ==> recs[i].owner == recs[i - 1].target)
    && (forall i :: 0 < i < k ==> Stands(src, recs[i]))
    && (forall i :: k <= i < |recs| ==> AsksFor(qtype, recs[i]) && recs[i].owner == recs[k - 1].target)
  }

  // The CNAME is the one record its owner has.
  ghost predicate Stands(src: Source, r: Rec)
    requires r.CNAME?
  {
    |src.lookup(r.owner)| == 1 && src.lookup(r.owner)[0].kind == "CNAME"
    && Fqdn(src.lookup(r.owner)[0].value) == r.target
  }

  lemma LowerFqdn(s: string)
    ensures Lower(Fqdn(s)) == Fqdn(Lower(s))
    ensures Fqdn(Fqdn(s)) == Fqdn(s)
  {
    if s != "" { assert s[|s| - 1..] == [s[|s| - 1]] && Lower(s)[|s| - 1..] == [LowerChar(s[|s| - 1])]; }
    LowerConcat(s, ".");
  }

  lemma {:induction false} PlainListConverts(src: Source, target: string, next: seq<RR>, qtype: nat, depth: nat,
                                             owner: string)
    requires depth < CHASE_DEPTH && forall rr :: rr in next ==> rr.kind != "CNAME" && rr.name == owner
    ensures var out := ChaseList(src, target, next, qtype, depth);
      forall r :: r in out ==> AsksFor(qtype, r) && r.owner == owner
    ensures ChaseList(src, target, next, qtype, depth) == Convert(next, qtype)
  {
    if next != [] {
      PlainListConverts(src, target, next[1..], qtype, depth, owner);
      ConvertFirst(next, qtype);
    }
  }

  lemma {:induction false} ConvertFirst(next: seq<RR>, qtype: nat)
    requires next != []
    ensures Convert(next, qtype) ==
      (match ToRR(next[0], qtype) case Some(r) => [r] case None => []) + Convert(next[1..], qtype)
  {
    var n := |next| - 1;
    if n > 0 {
      ConvertFirst(next[..n], qtype);
      assert next[..n][1..] == next[1..][..n - 1];
    }
  }

  // What follows the CNAMEs: nothing when the chain was cut or leaves our scope, else
  // all the last target's addresses of the asked type.
  ghost predicate Complete(src: Source, qtype: nat, recs: seq<Rec>, k: nat, depth: nat)
    requires 1 <= k <= |recs| && recs[k - 1].CNAME?
  {
    recs[k..] ==
      if k + depth == CHASE_DEPTH + 1 || qtype == TYPE_CNAME || !src.owns(recs[k - 1].target) then []
      else Convert(src.lookup(recs[k - 1].target), qtype)
  }

  // The answer to a chase is a chain of k CNAMEs and what belongs after it.
  ghost predicate ChainedIn(src: Source, name: string, target: string, qtype: nat, depth: nat, k: nat)
    requires depth <= CHASE_DEPTH
  {
    var recs := Chase(src, name, target, qtype, depth);
    Chain(src, name, target, qtype, recs, k) && Complete(src, qtype, recs, k, depth)
  }

  predicate FollowsOn(src: Source, target: string, qtype: nat, depth: nat) {
    depth < CHASE_DEPTH && qtype != TYPE_CNAME && src.owns(target)
  }

  lemma ChaseFollows(src: Source, name: string, target: string, qtype: nat, depth: nat)
    requires FollowsOn(src, target, qtype, depth)
    requires |src.lookup(Fqdn(target))| == 1 && src.lookup(Fqdn(target))[0].kind == "CNAME"
    ensures Chase(src, name, target, qtype, depth) == [CNAME(name, Fqdn(target))]
      + Chase(src, Fqdn(target), src.lookup(Fqdn(target))[0].value, qtype, depth + 1)
  {
  }

  lemma ChaseEnds(src: Source, name: string, target: string, qtype: nat, depth: nat)
    requires Orderly(src) && FollowsOn(src, target, qtype, depth)
    requires forall rr :: rr in src.lookup(Fqdn(target)) ==> rr.kind != "CNAME" && rr.name == Fqdn(target)
    ensures ChainedIn(src, name, target, qtype, depth, 1)
  {
    var next := src.lookup(Fqdn(target));
    assert DotBlind(src, target);
    PlainListConverts(src, target, next, qtype, depth, Fqdn(target));
    assert Chase(src, name, target, qtype, depth) == [CNAME(name, Fqdn(target))] + Convert(next, qtype);
    assert ([CNAME(name, Fqdn(target))] + Convert(next, qtype))[1..] == Convert(next, qtype);
  }

  // Every CNAME answer is such a chain, with at most nine CNAMEs; and it stops short
  // of that only where the last target is not ours to follow or has no CNAME, in
  // which case its addresses are all there.
  lemma {:induction false} ChaseIsAChain(src: Source, name: string, target: string, qtype: nat, depth: nat)
    returns (k: nat)
    requires Orderly(src) && depth <= CHASE_DEPTH && Lower(target) == target
    ensures ChainedIn(src, name, target, qtype, depth, k) && k + depth <= CHASE_DEPTH + 1
    decreases CHASE_DEPTH - depth
  {
    k := 1;
    if !FollowsOn(src, target, qtype, depth) {
      ChaseStops(src, name, target, qtype, depth);
    } else {
      var next := src.lookup(Fqdn(target));
      TargetRecords(src, target);
      if next != [] && next[0].kind == "CNAME" {
        k := ChaseIsAChain(src, Fqdn(target), next[0].value, qtype, depth + 1);
        ChainStep(src, name, target, qtype, depth, k);
        k := k + 1;
      } else {
        ChaseEnds(src, name, target, qtype, depth);
      }
    }
  }

  lemma ChaseStops(src: Source, name: string, target: string, qtype: nat, depth: nat)
    requires Orderly(src) && depth <= CHASE_DEPTH && !FollowsOn(src, target, qtype, depth)
    ensures ChainedIn(src, name, target, qtype, depth, 1)
  {
    assert DotBlind(src, target);
  }

  // What a lower-case target leads to: one CNAME with a lower-case value, or none.
  lemma TargetRecords(src: Source, target: string)
    requires Orderly(src) && Lower(target) == target
    ensures var next := src.lookup(Fqdn(target));
      && (next != [] && next[0].kind == "CNAME" ==> |next| == 1 && Lower(next[0].value) == next[0].value)
      && (!(next != [] && next[0].kind == "CNAME") ==> forall rr :: rr in next ==>
          rr.kind != "CNAME" && rr.name == Fqdn(target))
  {
    var next := src.lookup(Fqdn(target));
    LowerFqdn(target);
    assert OrderlyAt(src, Fqdn(target));
    if next != [] { assert next[0] in next; }
  }

  lemma ChainStep(src: Source, name: string, target: string, qtype: nat, depth: nat, k: nat)
    requires FollowsOn(src, target, qtype, depth)
    requires |src.lookup(Fqdn(target))| == 1 && src.lookup(Fqdn(target))[0].kind == "CNAME"
    requires ChainedIn(src, Fqdn(target), src.lookup(Fqdn(target))[0].value, qtype, depth + 1, k)
    ensures ChainedIn(src, name, target, qtype, depth, k + 1)
  {
    var value := src.lookup(Fqdn(target))[0].value;
    var rest := Chase(src, Fqdn(target), value, qtype, depth + 1);
    ChaseFollows(src, name, target, qtype, depth);
    ChainGrows(src, name, target, value, qtype, rest, k);
    CompleteGrows(src, qtype, CNAME(name, Fqdn(target)), rest, k, depth);
  }

  lemma CompleteGrows(src: Source, qtype: nat, first: Rec, rest: seq<Rec>, k: nat, depth: nat)
    requires 1 <= k <= |rest| && rest[k - 1].CNAME? && Complete(src, qtype, rest, k, depth + 1)
    ensures Complete(src, qtype, [first] + rest, k + 1, depth)
  {
    assert ([first] + rest)[k + 1..] == rest[k..];
  }

  lemma ChainGrows(src: Source, name: string, target: string, value: string, qtype: nat, rest: seq<Rec>, k: nat)
    requires Chain(src, Fqdn(target), value, qtype, rest, k)
    requires |src.lookup(Fqdn(target))| == 1 && src.lookup(Fqdn(target))[0].kind == "CNAME"
    requires src.lookup(Fqdn(target))[0].value == value
    ensures Chain(src, name, target, qtype, [CNAME(name, Fqdn(target))] + rest, k + 1)
  {
    var recs := [CNAME(name, Fqdn(target))] + rest;
    forall i | 0 < i < k + 1 ensures recs[i].CNAME? && recs[i].owner == recs[i - 1].target && Stands(src, recs[i]) {
      LinkGrows(src, name, target, value, qtype, rest, k, i);
    }
    TailGrows(src, name, target, value, qtype, rest, k);
  }

  lemma TailGrows(src: Source, name: string, target: string, value: string, qtype: nat, rest: seq<Rec>, k: nat)
    requires Chain(src, Fqdn(target), value, qtype, rest, k)
    ensures var recs := [CNAME(name, Fqdn(target))] + rest;
      forall i :: k + 1 <= i < |recs| ==> AsksFor(qtype, recs[i]) && recs[k].CNAME? && recs[i].owner == recs[k].target
  {
    var recs := [CNAME(name, Fqdn(target))] + rest;
    assert recs[k] == rest[k - 1];
    forall i | k + 1 <= i < |recs| ensures AsksFor(qtype, recs[i]) && recs[i].owner == recs[k].target {
      assert recs[i] == rest[i - 1];
    }
  }

  lemma LinkGrows(src: Source, name: string, target: string, value: string, qtype: nat, rest: seq<Rec>, k: nat, i: nat)
    requires Chain(src, Fqdn(target), value, qtype, rest, k) && 0 < i < k + 1
    requires |src.lookup(Fqdn(target))| == 1 && src.lookup(Fqdn(target))[0].kind == "CNAME"
    requires src.lookup(Fqdn(target))[0].value == value
    ensures var recs := [CNAME(name, Fqdn(target))] + rest;
      recs[i].CNAME? && recs[i].owner == recs[i - 1].target && Stands(src, recs[i])
  {
    var recs := [CNAME(name, Fqdn(target))] + rest;
    assert recs[i] == rest[i - 1];
    if i > 1 { assert recs[i - 1] == rest[i - 2]; }
  }

  // Names that are ours and only lead to one another: every chain through a cycle.
  ghost predicate Cycle(src: Source, names: set<string>) {
    forall n {:trigger src.lookup(n)} :: n in names ==>
      src.owns(n) && |src.lookup(n)| == 1 && src.lookup(n)[0].kind == "CNAME" && Fqdn(src.lookup(n)[0].value) in names
  }

  // Chasing a cycle ends, after exactly nine CNAMEs and with no address.
  lemma {:induction false} CyclesEnd(src: Source, names: set<string>, name: string, target: string, qtype: nat,
                                     depth: nat)
    requires Orderly(src) && Cycle(src, names) && Fqdn(target) in names && qtype != TYPE_CNAME && depth <= CHASE_DEPTH
    ensures var recs := Chase(src, name, target, qtype, depth);
      |recs| == 9 - depth && forall r :: r in recs ==> r.CNAME?
    decreases CHASE_DEPTH - depth
  {
    assert DotBlind(src, target);
    if depth < CHASE_DEPTH {
      var next := src.lookup(Fqdn(target));
      ChaseFollows(src, name, target, qtype, depth);
      CyclesEnd(src, names, Fqdn(target), next[0].value, qtype, depth + 1);
    }
  }
}
