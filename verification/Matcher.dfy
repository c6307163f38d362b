/** Which view a client sees: the longest configured prefix that holds its address. */
module Matcher {
  import opened Wrappers
  import opened Net
  import Sequences
  import Texts

  datatype View = View(name: string, subnets: seq<string>)

  datatype Entry = Entry(prefix: Prefix, view: string)

  datatype Matcher = Matcher(entries: seq<Entry>, names: seq<string>)

  datatype Error = BadCIDR(view: string, cidr: string) | Claimed(prefix: Prefix, first: string, second: string)

  // What netip.ParsePrefix makes of a text; an invalid prefix stands for an error.
  type PrefixText = string -> Prefix

  // ----- the order entries are kept in -----

  // Longer prefixes first, then by view name.
  predicate EntryLess(a: Entry, b: Entry) {
    if a.prefix.bits != b.prefix.bits then a.prefix.bits > b.prefix.bits else Texts.Less(a.view, b.view)
  }

  lemma {:induction false} LessIsTransitive(a: string, b: string, c: string)
    ensures !Texts.Less(b, a) && !Texts.Less(c, b) ==> !Texts.Less(c, a)
    ensures Texts.Less(a, b) ==> !Texts.Less(b, a)
  {
    if a != "" && b != "" {
      LessIsTransitive(a[1..], b[1..], if c != "" then c[1..] else "");
    }
  }

  // less behaves as a strict order whose complement is transitive.
  ghost predicate Ordering<T(!new)>(less: (T, T) -> bool) {
    && (forall a, b :: less(a, b) ==> !less(b, a))
    && (forall a, b, c :: !less(b, a) && !less(c, b) ==> !less(c, a))
  }

  lemma StringsAreOrdered()
    ensures Ordering(Texts.Less)
  {
    forall a, b ensures Texts.Less(a, b) ==> !Texts.Less(b, a) { LessIsTransitive(a, b, b); }
    forall a, b, c ensures !Texts.Less(b, a) && !Texts.Less(c, b) ==> !Texts.Less(c, a) {
      LessIsTransitive(a, b, c);
    }
  }

  lemma EntriesAreOrdered()
    ensures Ordering(EntryLess)
  {
    StringsAreOrdered();
  }

  ghost predicate SortedBy<T>(less: (T, T) -> bool, s: seq<T>) {
    forall i, j :: 0 <= i < j < |s| ==> !less(s[j], s[i])
  }

  method Sort<T(!new)>(less: (T, T) -> bool, es: seq<T>) returns (s: seq<T>)
    requires Ordering(less)
    ensures multiset(s) == multiset(es) && SortedBy(less, s)
  {
    s := [];
    for n := 0 to |es|
      invariant multiset(s) == multiset(es[..n]) && SortedBy(less, s)
    {
      s := Insert(less, s, es[n]);
      assert es[..n + 1] == es[..n] + [es[n]];
    }
    assert es[..|es|] == es;
  }

  method Insert<T(!new)>(less: (T, T) -> bool, s: seq<T>, x: T) returns (t: seq<T>)
    requires Ordering(less) && SortedBy(less, s)
    ensures multiset(t) == multiset(s) + multiset{x} && SortedBy(less, t)
  {
    var k := 0;
    while k < |s| && !less(x, s[k])
      invariant k <= |s|
      invariant forall i :: 0 <= i < k ==> !less(x, s[i])
    {
      k := k + 1;
    }
    InsertionSorted(less, s, x, k);
    t := s[..k] + [x] + s[k..];
    assert s == s[..k] + s[k..];
  }

  lemma InsertionSorted<T(!new)>(less: (T, T) -> bool, s: seq<T>, x: T, k: nat)
    requires Ordering(less) && SortedBy(less, s) && k <= |s|
    requires forall i :: 0 <= i < k ==> !less(x, s[i])
    requires k < |s| ==> less(x, s[k])
    ensures SortedBy(less, s[..k] + [x] + s[k..])
  {
    var t := s[..k] + [x] + s[k..];
    forall i, j | 0 <= i < j < |t| ensures !less(t[j], t[i]) {
      if i < k && j > k {
        assert t[i] == s[i] && t[j] == s[j - 1];
      } else if i == k {
        assert t[j] == s[j - 1] && !less(s[k], x);
        assert k < j - 1 ==> !less(s[j - 1], s[k]);
      } else if i > k {
        assert t[i] == s[i - 1] && t[j] == s[j - 1];
      }
    }
  }

  // ----- what the views claim -----

  function ClaimsOf(text: PrefixText, name: string, subnets: seq<string>): seq<Entry> {
    if subnets == [] then []
    else ClaimsOf(text, name, subnets[..|subnets| - 1]) + [Entry(Canonical(text(subnets[|subnets| - 1])), name)]
  }

  function Claims(text: PrefixText, views: seq<View>): seq<Entry> {
    if views == [] then []
    else Claims(text, views[..|views| - 1]) + ClaimsOf(text, views[|views| - 1].name, views[|views| - 1].subnets)
  }

  ghost predicate Acceptable(claims: seq<Entry>) {
    && (forall i :: 0 <= i < |claims| ==> claims[i].prefix.Valid())
    && (forall i, j :: 0 <= i < j < |claims| ==> claims[i].prefix != claims[j].prefix)
  }

  ghost predicate ClaimedBy(claimed: map<Prefix, string>, claims: seq<Entry>) {
    && (forall i :: 0 <= i < |claims| ==> claims[i].prefix in claimed && claimed[claims[i].prefix] == claims[i].view)
    && (forall p :: p in claimed ==> Entry(p, claimed[p]) in claims)
  }

  // One subnet, added to what is claimed so far.
  method AddSubnet(p: Prefix, name: string, cidr: string, before: seq<Entry>, claimedBefore: map<Prefix, string>)
    returns (err: Option<Error>, entries: seq<Entry>, claimed: map<Prefix, string>)
    requires Acceptable(before) && ClaimedBy(claimedBefore, before)
    ensures err.None? <==> Acceptable(before + [Entry(Canonical(p), name)])
    ensures err.None? ==> entries == before + [Entry(Canonical(p), name)] && ClaimedBy(claimed, entries)
  {
    entries, claimed := before, claimedBefore;
    ghost var next := Entry(Canonical(p), name);
    assert (before + [next])[|before|] == next;
    if !p.Valid() {
      return Some(BadCIDR(name, cidr)), entries, claimed;
    }
    var masked := Masked(p);
    if masked in claimed {
      ghost var k :| 0 <= k < |before| && before[k] == Entry(masked, claimed[masked]);
      assert (before + [next])[k] == before[k];
      return Some(Claimed(masked, claimed[masked], name)), entries, claimed;
    }
    assert forall i :: 0 <= i < |before| ==> before[i].prefix != masked;
    claimed := claimed[masked := name];
    entries := entries + [Entry(masked, name)];
    err := None;
  }

  // One view's subnets, added to what earlier views claimed.
  method AddView(text: PrefixText, v: View, before: seq<Entry>, claimedBefore: map<Prefix, string>)
    returns (err: Option<Error>, entries: seq<Entry>, claimed: map<Prefix, string>)
    requires Acceptable(before) && ClaimedBy(claimedBefore, before)
    ensures err.None? <==> Acceptable(before + ClaimsOf(text, v.name, v.subnets))
    ensures err.None? ==> entries == before + ClaimsOf(text, v.name, v.subnets) && ClaimedBy(claimed, entries)
  {
    entries, claimed := before, claimedBefore;
    ghost var all := before + ClaimsOf(text, v.name, v.subnets);
    ClaimsCount(text, v.name, v.subnets);
    assert all[..|before|] == before;
    for i := 0 to |v.subnets|
      invariant entries == all[..|before| + i]
      invariant Acceptable(entries) && ClaimedBy(claimed, entries)
    {
      NextClaim(text, v.name, v.subnets, i, before);
      err, entries, claimed := AddSubnet(text(v.subnets[i]), v.name, v.subnets[i], entries, claimed);
      if err.Some? {
        UnacceptableTake(all, |before| + i + 1);
        return;
      }
    }
    assert all[..|before| + |v.subnets|] == all;
    err := None;
  }

  lemma {:induction false} ClaimsCount(text: PrefixText, name: string, subnets: seq<string>)
    ensures |ClaimsOf(text, name, subnets)| == |subnets|
  {
    if subnets != [] { ClaimsCount(text, name, subnets[..|subnets| - 1]); }
  }

  lemma NextClaim(text: PrefixText, name: string, subnets: seq<string>, i: nat, before: seq<Entry>)
    requires i < |subnets|
    ensures var all := before + ClaimsOf(text, name, subnets);
      && |before| + i + 1 <= |all|
      && all[..|before| + i + 1] == all[..|before| + i] + [Entry(Canonical(text(subnets[i])), name)]
  {
    ClaimsCount(text, name, subnets);
    ClaimsOfPrefix(text, name, subnets, i);
    TakeAfter(before, ClaimsOf(text, name, subnets), i);
  }

  lemma TakeAfter<T>(before: seq<T>, all: seq<T>, i: nat)
    requires i < |all|
    ensures (before + all)[..|before| + i + 1] == (before + all)[..|before| + i] + [all[i]]
  {
  }

  lemma UnacceptableTake(es: seq<Entry>, n: nat)
    requires n <= |es| && !Acceptable(es[..n])
    ensures !Acceptable(es)
  {
  }

  lemma {:induction false} ClaimsOfPrefix(text: PrefixText, name: string, subnets: seq<string>, i: nat)
    requires i < |subnets|
    ensures var all := ClaimsOf(text, name, subnets);
      && |all| == |subnets| && |ClaimsOf(text, name, subnets[..i])| == i
      && all[..i] == ClaimsOf(text, name, subnets[..i]) && all[i] == Entry(Canonical(text(subnets[i])), name)
  {
    var n := |subnets| - 1;
    if i < n {
      ClaimsOfPrefix(text, name, subnets[..n], i);
      assert subnets[..n][..i] == subnets[..i];
    } else if n > 0 {
      ClaimsOfPrefix(text, name, subnets[..n], n - 1);
    }
  }

  function NamesOf(views: seq<View>): (names: seq<string>)
    ensures |names| == |views| && forall i :: 0 <= i < |views| ==> names[i] == views[i].name
  {
    seq(|views|, i requires 0 <= i < |views| => views[i].name)
  }

  method NewMatcher(text: PrefixText, views: seq<View>) returns (r: Result<Matcher, Error>)
    ensures r.Ok? <==> Acceptable(Claims(text, views))
    ensures r.Ok? ==> SortedBy(EntryLess, r.value.entries) && multiset(r.value.entries) == multiset(Claims(text, views))
    ensures r.Ok? ==> SortedBy(Texts.Less, r.value.names) && multiset(r.value.names) == multiset(NamesOf(views))
  {
    var names: seq<string>, entries: seq<Entry>, claimed: map<Prefix, string> := [], [], map[];
    ghost var all := NamesOf(views);
    for n := 0 to |views|
      invariant names == all[..n]
      invariant entries == Claims(text, views[..n]) && Acceptable(entries) && ClaimedBy(claimed, entries)
    {
      assert views[..n + 1][..n] == views[..n];
      names := names + [views[n].name];
      var err, es, cl := AddView(text, views[n], entries, claimed);
      if err.Some? {
        UnacceptablePrefix(text, views, n + 1);
        return Err(err.value);
      }
      entries, claimed := es, cl;
    }
    assert views[..|views|] == views && all[..|views|] == all;
    EntriesAreOrdered();
    StringsAreOrdered();
    entries := Sort(EntryLess, entries);
    names := Sort(Texts.Less, names);
    r := Ok(Matcher(entries, names));
  }

  lemma {:induction false} UnacceptablePrefix(text: PrefixText, views: seq<View>, n: nat)
    requires n <= |views| && !Acceptable(Claims(text, views[..n]))
    ensures !Acceptable(Claims(text, views))
  {
    if n < |views| {
      var m := |views| - 1;
      assert views[..m][..n] == views[..n];
      UnacceptablePrefix(text, views[..m], n);
      var a, b := Claims(text, views[..m]), Claims(text, views);
      assert forall i :: 0 <= i < |a| ==> b[i] == a[i];
    } else {
      assert views[..n] == views;
    }
  }

  // ----- matching -----

  method Match(m: Matcher, addr: Addr) returns (view: string)
    ensures view == MatchIn(m.entries, addr)
  {
    if addr == NoAddr {
      return "";
    }
    var a := Unmap(addr);
    for i := 0 to |m.entries|
      invariant FirstMatch(m.entries[i..], a) == FirstMatch(m.entries, a)
    {
      if Contains(m.entries[i].prefix, a) {
        return m.entries[i].view;
      }
    }
    view := "";
  }

  function FirstMatch(es: seq<Entry>, a: Addr): string {
    if es == [] then "" else if Contains(es[0].prefix, a) then es[0].view else FirstMatch(es[1..], a)
  }

  function MatchIn(es: seq<Entry>, addr: Addr): string {
    if addr == NoAddr then "" else FirstMatch(es, Unmap(addr))
  }

  // e holds the address and every other entry that does is strictly shorter.
  ghost predicate LongestMatch(es: seq<Entry>, addr: Addr, e: Entry) {
    && e in es && Contains(e.prefix, Unmap(addr))
    && forall f :: f in es && f != e && Contains(f.prefix, Unmap(addr)) ==> f.prefix.bits < e.prefix.bits
  }

  ghost predicate NoMatch(es: seq<Entry>, addr: Addr) {
    forall f :: f in es ==> !Contains(f.prefix, Unmap(addr))
  }

  lemma {:induction false} FirstMatchWhere(es: seq<Entry>, a: Addr) returns (k: nat)
    ensures k <= |es| && forall i :: 0 <= i < k ==> !Contains(es[i].prefix, a)
    ensures k < |es| ==> Contains(es[k].prefix, a) && FirstMatch(es, a) == es[k].view
    ensures k == |es| ==> FirstMatch(es, a) == ""
  {
    if es == [] || Contains(es[0].prefix, a) {
      k := 0;
    } else {
      k := FirstMatchWhere(es[1..], a);
      k := k + 1;
    }
  }

  // Matching a sorted table of accepted claims gives the view of the one longest
  // prefix that holds the address, and the default view when none does.
  lemma MatchIsLongest(claims: seq<Entry>, es: seq<Entry>, addr: Addr)
    requires Acceptable(claims) && multiset(es) == multiset(claims) && SortedBy(EntryLess, es)
    requires forall e :: e in claims ==> e.prefix.Valid() && Masked(e.prefix) == e.prefix
    ensures NoMatch(claims, addr) ==> MatchIn(es, addr) == ""
    ensures !NoMatch(claims, addr) ==> exists e :: LongestMatch(claims, addr, e) && MatchIn(es, addr) == e.view
  {
    var a := Unmap(addr);
    var k := FirstMatchWhere(es, a);
    SameMembers(claims, es);
    if k < |es| {
      var e := es[k];
      assert e in es;
      forall f | f in claims && f != e && Contains(f.prefix, a) ensures f.prefix.bits < e.prefix.bits {
        LaterIsShorter(claims, es, a, k, f);
      }
      assert LongestMatch(claims, addr, e);
    }
  }

  lemma SameMembers(claims: seq<Entry>, es: seq<Entry>)
    requires multiset(es) == multiset(claims)
    ensures forall e :: e in claims <==> e in es
  {
    forall e ensures e in claims <==> e in es { assert e in multiset(claims) <==> e in multiset(es); }
  }

  // Any other claim that holds the address comes later in the table, and is shorter.
  lemma LaterIsShorter(claims: seq<Entry>, es: seq<Entry>, a: Addr, k: nat, f: Entry)
    requires Acceptable(claims) && SortedBy(EntryLess, es) && k < |es| && es[k] in claims && f in claims && f in es
    requires forall e :: e in claims ==> e.prefix.Valid() && Masked(e.prefix) == e.prefix
    requires forall i :: 0 <= i < k ==> !Contains(es[i].prefix, a)
    requires Contains(es[k].prefix, a) && Contains(f.prefix, a) && f != es[k]
    ensures f.prefix.bits < es[k].prefix.bits
  {
    var j :| 0 <= j < |es| && es[j] == f;
    assert k < j && !EntryLess(es[j], es[k]);
    if f.prefix.bits == es[k].prefix.bits {
      MaskedDisjoint(es[k].prefix, f.prefix, a);
      SamePrefixSameClaim(claims, es[k], f);
    }
  }

  lemma SamePrefixSameClaim(claims: seq<Entry>, e: Entry, f: Entry)
    requires Acceptable(claims) && e in claims && f in claims && e.prefix == f.prefix
    ensures e == f
  {
  }

  // So the answer does not depend on how the views were listed or sorted.
  lemma MatchIgnoresOrder(claims: seq<Entry>, es: seq<Entry>, claims2: seq<Entry>, es2: seq<Entry>, addr: Addr)
    requires Acceptable(claims) && Acceptable(claims2) && multiset(claims) == multiset(claims2)
    requires multiset(es) == multiset(claims) && SortedBy(EntryLess, es) && multiset(es2) == multiset(claims2)
      && SortedBy(EntryLess, es2)
    requires forall e :: e in claims ==> e.prefix.Valid() && Masked(e.prefix) == e.prefix
    ensures MatchIn(es, addr) == MatchIn(es2, addr)
  {
    assert forall e :: e in claims <==> e in multiset(claims2);
    MatchIsLongest(claims, es, addr);
    MatchIsLongest(claims2, es2, addr);
    if !NoMatch(claims, addr) {
      var e :| LongestMatch(claims, addr, e) && MatchIn(es, addr) == e.view;
      var f :| LongestMatch(claims2, addr, f) && MatchIn(es2, addr) == f.view;
      assert e == f;
    }
  }

  lemma {:induction false} ClaimsOfAreMasked(text: PrefixText, name: string, subnets: seq<string>)
    ensures forall e :: e in ClaimsOf(text, name, subnets) && e.prefix.Valid() ==> Masked(e.prefix) == e.prefix
  {
    if subnets != [] {
      ClaimsOfAreMasked(text, name, subnets[..|subnets| - 1]);
      var p := text(subnets[|subnets| - 1]);
      if p.Valid() { MaskedTwice(p); }
    }
  }

  lemma {:induction false} ClaimsAreMasked(text: PrefixText, views: seq<View>)
    ensures forall e :: e in Claims(text, views) && e.prefix.Valid() ==> Masked(e.prefix) == e.prefix
  {
    if views != [] {
      ClaimsAreMasked(text, views[..|views| - 1]);
      ClaimsOfAreMasked(text, views[|views| - 1].name, views[|views| - 1].subnets);
    }
  }

  lemma {:induction false} ClaimsConcat(text: PrefixText, a: seq<View>, b: seq<View>)
    ensures Claims(text, a + b) == Claims(text, a) + Claims(text, b)
  {
    if b == [] {
      assert a + b == a;
    } else {
      var c, v := b[..|b| - 1], b[|b| - 1];
      assert (a + b)[..|a + b| - 1] == a + c && (a + b)[|a + b| - 1] == v;
      ClaimsConcat(text, a, c);
      var x, y, z := Claims(text, a), Claims(text, c), ClaimsOf(text, v.name, v.subnets);
      assert (x + y) + z == x + (y + z);
    }
  }

  lemma ClaimsWithout(text: PrefixText, l: seq<View>, v: View, r: seq<View>)
    ensures multiset(Claims(text, l + [v] + r)) == multiset(Claims(text, l + r)) + multiset(Claims(text, [v]))
  {
    ClaimsConcat(text, l + [v], r);
    ClaimsConcat(text, l, [v]);
    ClaimsConcat(text, l, r);
  }

  // Listing the views in another order claims the same prefixes.
  lemma {:induction false} ClaimsIgnoreOrder(text: PrefixText, a: seq<View>, b: seq<View>)
    requires multiset(a) == multiset(b)
    ensures multiset(Claims(text, a)) == multiset(Claims(text, b))
  {
    if a == [] {
      assert |multiset(b)| == 0;
    } else {
      var n := |a| - 1;
      var k := Sequences.FindLast(a, b);
      ClaimsIgnoreOrder(text, a[..n], b[..k] + b[k + 1..]);
      ClaimsWithout(text, b[..k], b[k], b[k + 1..]);
      ClaimsConcat(text, a[..n], [a[n]]);
      assert a == a[..n] + [a[n]];
    }
  }

  // A client sees the same view however the views are listed, and the table is
  // accepted or refused alike.
  lemma ViewsIgnoreOrder(text: PrefixText, a: seq<View>, b: seq<View>, es: seq<Entry>, es2: seq<Entry>, addr: Addr)
    requires multiset(a) == multiset(b)
    requires multiset(es) == multiset(Claims(text, a)) && SortedBy(EntryLess, es)
    requires multiset(es2) == multiset(Claims(text, b)) && SortedBy(EntryLess, es2)
    ensures Acceptable(Claims(text, a)) <==> Acceptable(Claims(text, b))
    ensures Acceptable(Claims(text, a)) ==> MatchIn(es, addr) == MatchIn(es2, addr)
  {
    ClaimsIgnoreOrder(text, a, b);
    ClaimsAreMasked(text, a);
    TablesAgree(Claims(text, a), es, Claims(text, b), es2, addr);
  }

  lemma TablesAgree(a: seq<Entry>, es: seq<Entry>, b: seq<Entry>, es2: seq<Entry>, addr: Addr)
    requires multiset(a) == multiset(b)
    requires multiset(es) == multiset(a) && SortedBy(EntryLess, es) && multiset(es2) == multiset(b)
      && SortedBy(EntryLess, es2)
    requires forall e :: e in a && e.prefix.Valid() ==> Masked(e.prefix) == e.prefix
    ensures Acceptable(a) <==> Acceptable(b)
    ensures Acceptable(a) ==> MatchIn(es, addr) == MatchIn(es2, addr)
  {
    if Acceptable(a) {
      AcceptableIgnoresOrder(a, b);
      MatchIgnoresOrder(a, es, b, es2, addr);
    } else if Acceptable(b) {
      AcceptableIgnoresOrder(b, a);
    }
  }

  lemma AcceptableIgnoresOrder(a: seq<Entry>, b: seq<Entry>)
    requires multiset(a) == multiset(b) && Acceptable(a)
    ensures Acceptable(b)
  {
    forall i | 0 <= i < |b| ensures b[i].prefix.Valid() {
      assert b[i] in multiset(a);
    }
    forall i, j | 0 <= i < j < |b| ensures b[i].prefix != b[j].prefix {
      assert b[i] in multiset(a) && b[j] in multiset(a);
      if b[i].prefix == b[j].prefix {
        SamePrefixSameClaim(a, b[i], b[j]);
        TwiceInMultiset(b, i, j);
        OnceInMultiset(a, b[i]);
      }
    }
  }

  lemma TwiceInMultiset(s: seq<Entry>, i: nat, j: nat)
    requires i < j < |s| && s[i] == s[j]
    ensures multiset(s)[s[i]] >= 2
  {
    assert s == s[..i] + [s[i]] + s[i + 1..j] + [s[j]] + s[j + 1..];
  }

  lemma OnceInMultiset(s: seq<Entry>, e: Entry)
    requires Acceptable(s) && e in s
    ensures multiset(s)[e] == 1
  {
    var k :| 0 <= k < |s| && s[k] == e;
    assert s == s[..k] + [e] + s[k + 1..];
  }
}
