/** Facts about sequences the models share. */
module Sequences {
  // Two listings of the same elements: the last of one is somewhere in the other,
  // and what remains of both is again the same.
  lemma FindLast<T>(a: seq<T>, b: seq<T>) returns (k: nat)
    requires multiset(a) == multiset(b) && a != []
    ensures k < |b| && b[k] == a[|a| - 1]
    ensures multiset(a[..|a| - 1]) == multiset(b[..k] + b[k + 1..])
    ensures b == b[..k] + [b[k]] + b[k + 1..]
  {
    var n, v := |a| - 1, a[|a| - 1];
    LastOut(a);
    assert v in multiset(b);
    k :| 0 <= k < |b| && b[k] == v;
    OneOut(b, k);
    SameRest(multiset(a[..n]), multiset(b[..k] + b[k + 1..]), v);
  }

  lemma LastOut<T>(a: seq<T>)
    requires a != []
    ensures multiset(a) == multiset(a[..|a| - 1]) + multiset{a[|a| - 1]}
  {
    assert a == a[..|a| - 1] + [a[|a| - 1]];
  }

  lemma OneOut<T>(b: seq<T>, k: nat)
    requires k < |b|
    ensures b == b[..k] + [b[k]] + b[k + 1..]
    ensures multiset(b) == multiset(b[..k] + b[k + 1..]) + multiset{b[k]}
  {
    assert b == b[..k] + [b[k]] + b[k + 1..];
  }

  lemma SameRest<T>(x: multiset<T>, y: multiset<T>, v: T)
    requires x + multiset{v} == y + multiset{v}
    ensures x == y
  {
    assert x == (x + multiset{v}) - multiset{v} && y == (y + multiset{v}) - multiset{v};
  }

  // ----- positions in a sequence -----

  ghost predicate Ascending(at: seq<nat>, n: nat) {
    (forall i :: 0 <= i < |at| ==> at[i] < n) && forall i, j :: 0 <= i < j < |at| ==> at[i] < at[j]
  }

  // out is what the kept entries of the list become, in order.
  ghost predicate Selects<A, B>(at: seq<nat>, all: seq<A>, keep: A -> bool, become: A -> B, out: seq<B>) {
    && Ascending(at, |all|) && |out| == |at|
    && (forall k :: 0 <= k < |at| ==> out[k] == become(all[at[k]]))
    && (forall i :: 0 <= i < |all| ==> (i in at <==> keep(all[i])))
  }

  lemma SelectsMore<A, B>(at: seq<nat>, all: seq<A>, keep: A -> bool, become: A -> B, out: seq<B>, a: A)
    requires Selects(at, all, keep, become, out)
    ensures keep(a) ==> Selects(at + [|all|], all + [a], keep, become, out + [become(a)])
    ensures !keep(a) ==> Selects(at, all + [a], keep, become, out)
  {
  }

  lemma SelectsNone<A, B>(keep: A -> bool, become: A -> B)
    ensures Selects([], [], keep, become, [])
  {
  }

  lemma Front<A>(all: seq<A>)
    requires all != []
    ensures all[..|all| - 1] + [all[|all| - 1]] == all && |all[..|all| - 1]| == |all| - 1
  {
  }

  function Itself<T>(): T -> T { t => t }

  // Choosing among the chosen.
  function Through(outer: seq<nat>, inner: seq<nat>): (at: seq<nat>)
    requires forall k :: 0 <= k < |inner| ==> inner[k] < |outer|
    ensures |at| == |inner| && forall k :: 0 <= k < |at| ==> at[k] == outer[inner[k]]
  {
    seq(|inner|, k requires 0 <= k < |inner| => outer[inner[k]])
  }

  lemma ThroughHas(outer: seq<nat>, n: nat, inner: seq<nat>, k: nat)
    requires Ascending(outer, n) && Ascending(inner, |outer|) && k < |outer|
    ensures outer[k] in Through(outer, inner) <==> k in inner
  {
    var at := Through(outer, inner);
    if k in inner { var j :| 0 <= j < |inner| && inner[j] == k; assert at[j] == outer[k]; }
    if outer[k] in at { var j :| 0 <= j < |at| && at[j] == outer[k]; assert inner[j] == k; }
  }

  lemma SelectsTwice<A, B>(outer: seq<nat>, all: seq<A>, keep: A -> bool, picked: seq<A>, inner: seq<nat>,
                           further: A -> bool, become: A -> B, out: seq<B>)
    returns (at: seq<nat>)
    requires Selects(outer, all, keep, Itself(), picked) && Selects(inner, picked, further, become, out)
    ensures Ascending(at, |all|) && |out| == |at|
    ensures forall k :: 0 <= k < |at| ==> out[k] == become(all[at[k]])
    ensures forall i :: 0 <= i < |all| ==> (i in at <==> keep(all[i]) && further(all[i]))
  {
    at := Through(outer, inner);
    forall i | 0 <= i < |all| ensures i in at <==> keep(all[i]) && further(all[i]) {
      hide Through;
      if i in outer {
        var k :| 0 <= k < |outer| && outer[k] == i;
        ThroughHas(outer, |all|, inner, k);
      }
    }
  }
}
