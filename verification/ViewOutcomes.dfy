/** Which views are accepted and which one a client sees, subnet by subnet as configured. */
module ViewOutcomes {
  import opened Net
  import opened Matcher

  // The subnet at k of the view at i, as it was typed.
  predicate Has(views: seq<View>, i: int, k: int) { 0 <= i < |views| && 0 <= k < |views[i].subnets| }

  function Typed(text: PrefixText, views: seq<View>, i: int, k: int): Prefix
    requires Has(views, i, k)
  {
    text(views[i].subnets[k])
  }

  // How many subnets come before those of the view at i.
  function Before(views: seq<View>, i: nat): nat
    requires i <= |views|
  {
    if i == 0 then 0 else Before(views, i - 1) + |views[i - 1].subnets|
  }

  lemma {:induction false} BeforeGrows(views: seq<View>, i: nat, j: nat)
    requires i < j <= |views|
    ensures Before(views, i) + |views[i].subnets| <= Before(views, j)
  {
    if i < j - 1 { BeforeGrows(views, i, j - 1); }
  }

  lemma {:induction false} BeforeSame(views: seq<View>, n: nat, i: nat)
    requires i <= n <= |views|
    ensures Before(views[..n], i) == Before(views, i)
  {
    if i > 0 { BeforeSame(views, n, i - 1); }
  }

  lemma {:induction false} ClaimAt(text: PrefixText, views: seq<View>, i: nat, k: nat)
    requires Has(views, i, k)
    ensures |Claims(text, views)| == Before(views, |views|) && Before(views, i) + k < |Claims(text, views)|
    ensures Claims(text, views)[Before(views, i) + k] == Entry(Canonical(Typed(text, views, i, k)), views[i].name)
  {
    var n := |views| - 1;
    ClaimsTotal(text, views);
    ClaimsTotal(text, views[..n]);
    BeforeSame(views, n, n);
    ClaimsCount(text, views[n].name, views[n].subnets);
    if i < n {
      ClaimAt(text, views[..n], i, k);
      BeforeSame(views, n, i);
      BeforeGrows(views, i, n);
    } else {
      ClaimsOfPrefix(text, views[n].name, views[n].subnets, k);
    }
  }

  lemma {:induction false} ClaimsTotal(text: PrefixText, views: seq<View>)
    ensures |Claims(text, views)| == Before(views, |views|)
  {
    if views != [] {
      var n := |views| - 1;
      ClaimsTotal(text, views[..n]);
      BeforeSame(views, n, n);
      ClaimsCount(text, views[n].name, views[n].subnets);
    }
  }

  // Every claim is that of some subnet.
  lemma {:induction false} ClaimFrom(text: PrefixText, views: seq<View>, c: nat) returns (i: nat, k: nat)
    requires c < |Claims(text, views)|
    ensures Has(views, i, k) && c == Before(views, i) + k
  {
    var n := |views| - 1;
    ClaimsTotal(text, views[..n]);
    BeforeSame(views, n, n);
    ClaimsCount(text, views[n].name, views[n].subnets);
    if c < Before(views, n) {
      i, k := ClaimFrom(text, views[..n], c);
      BeforeSame(views, n, i);
    } else {
      i, k := n, c - Before(views, n);
    }
  }

  lemma PlacesDiffer(views: seq<View>, i: nat, k: nat, j: nat, l: nat)
    requires Has(views, i, k) && Has(views, j, l) && (i != j || k != l)
    ensures Before(views, i) + k != Before(views, j) + l
  {
    if i < j { BeforeGrows(views, i, j); }
    if j < i { BeforeGrows(views, j, i); }
  }

  // The views are accepted exactly when every subnet reads as a prefix and no two of them,
  // of one view or of several, are the same once their host bits are gone.
  lemma AcceptedByPosition(text: PrefixText, views: seq<View>)
    ensures Acceptable(Claims(text, views)) <==>
      && (forall i: nat, k: nat :: Has(views, i, k) ==> Typed(text, views, i, k).Valid())
      && (forall i: nat, k: nat, j: nat, l: nat :: Has(views, i, k) && Has(views, j, l) && (i != j || k != l) ==>
            Canonical(Typed(text, views, i, k)) != Canonical(Typed(text, views, j, l)))
  {
    var claims := Claims(text, views);
    forall i: nat, k: nat | Has(views, i, k)
      ensures Before(views, i) + k < |claims|
      ensures claims[Before(views, i) + k].prefix == Canonical(Typed(text, views, i, k))
    {
      ClaimAt(text, views, i, k);
    }
    if Acceptable(claims) {
      forall i: nat, k: nat, j: nat, l: nat | Has(views, i, k) && Has(views, j, l) && (i != j || k != l)
        ensures Canonical(Typed(text, views, i, k)) != Canonical(Typed(text, views, j, l))
      {
        PlacesDiffer(views, i, k, j, l);
      }
    } else if c: nat :| c < |claims| && !claims[c].prefix.Valid() {
      var i, k := ClaimFrom(text, views, c);
    } else {
      var c: nat, d: nat :| c < d < |claims| && claims[c].prefix == claims[d].prefix;
      var i, k := ClaimFrom(text, views, c);
      var j, l := ClaimFrom(text, views, d);
    }
  }

  // The subnet at k of the view at i holds the client's address.
  predicate Holds(text: PrefixText, views: seq<View>, addr: Addr, i: int, k: int) {
    Has(views, i, k) && Contains(Typed(text, views, i, k), Unmap(addr))
  }

  // So does it, and every other that does is shorter.
  ghost predicate Closest(text: PrefixText, views: seq<View>, addr: Addr, i: int, k: int) {
    && Holds(text, views, addr, i, k)
    && forall j: nat, l: nat :: Holds(text, views, addr, j, l) && (j != i || l != k) ==>
         Typed(text, views, j, l).bits < Typed(text, views, i, k).bits
  }

  // A client sees the view of the closest subnet, there being one whenever any holds its
  // address; and the default view when none does.
  lemma SeenByPosition(text: PrefixText, views: seq<View>, es: seq<Entry>, addr: Addr)
    requires Acceptable(Claims(text, views)) && multiset(es) == multiset(Claims(text, views))
    requires SortedBy(EntryLess, es)
    ensures if forall i: nat, k: nat :: !Holds(text, views, addr, i, k) then MatchIn(es, addr) == ""
      else exists i: nat, k: nat :: Closest(text, views, addr, i, k) && MatchIn(es, addr) == views[i].name
  {
    ClaimsAreMasked(text, views);
    MatchIsLongest(Claims(text, views), es, addr);
    hide Acceptable, SortedBy, MatchIn, LongestMatch;
    if NoMatch(Claims(text, views), addr) {
      forall i: nat, k: nat | Has(views, i, k) ensures !Holds(text, views, addr, i, k) {
        HoldingClaim(text, views, addr, i, k);
      }
    } else {
      var e :| LongestMatch(Claims(text, views), addr, e) && MatchIn(es, addr) == e.view;
      var i, k := LongestIsClosest(text, views, addr, e);
    }
  }

  lemma HoldingClaim(text: PrefixText, views: seq<View>, addr: Addr, i: nat, k: nat)
    requires Has(views, i, k)
    ensures var e := Entry(Canonical(Typed(text, views, i, k)), views[i].name);
      && e in Claims(text, views) && e.prefix.bits == Typed(text, views, i, k).bits
      && (Contains(e.prefix, Unmap(addr)) <==> Holds(text, views, addr, i, k))
  {
    ClaimAt(text, views, i, k);
    assert Claims(text, views)[Before(views, i) + k] in Claims(text, views);
    hide Claims, Contains, Masked;
    if Typed(text, views, i, k).Valid() {
      MaskedContains(Typed(text, views, i, k), Unmap(addr));
    } else {
      InvalidHoldsNothing(Typed(text, views, i, k), Unmap(addr));
    }
  }

  lemma InvalidHoldsNothing(p: Prefix, a: Addr)
    requires !p.Valid()
    ensures !Contains(p, a)
  {
  }

  lemma LongestIsClosest(text: PrefixText, views: seq<View>, addr: Addr, e: Entry) returns (i: nat, k: nat)
    requires LongestMatch(Claims(text, views), addr, e) && Acceptable(Claims(text, views))
    ensures Closest(text, views, addr, i, k) && e.view == views[i].name
  {
    var claims := Claims(text, views);
    var c: nat :| c < |claims| && claims[c] == e;
    i, k := ClaimFrom(text, views, c);
    ClaimAt(text, views, i, k);
    HoldingClaim(text, views, addr, i, k);
    forall j: nat, l: nat | Holds(text, views, addr, j, l) && (j != i || l != k)
      ensures Typed(text, views, j, l).bits < Typed(text, views, i, k).bits
    {
      PlacesDiffer(views, i, k, j, l);
      ClaimAt(text, views, j, l);
      HoldingClaim(text, views, addr, j, l);
      hide Claims, Contains, Canonical, Before;
      DifferentClaims(claims, Before(views, j) + l, c);
    }
  }

  lemma DifferentClaims(claims: seq<Entry>, c: nat, d: nat)
    requires Acceptable(claims) && c < |claims| && d < |claims| && c != d
    ensures claims[c] != claims[d]
  {
  }
}
