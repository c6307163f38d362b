/** What the recency sequence, which the cache object refines, guarantees over
    every run of stores, lookups, retunes and flushes. */
module CacheFacts {
  import opened Wrappers
  import opened Net
  import opened RingList
  import opened Cache

  // Limits under which the eviction loop ends.
  type Sizes = l: Limits | l.maxEntries >= 0 witness Limits(1, 0, 0, 0)

  datatype Op =
    | Put(key: Key, m: Msg, now: int)
    | Lookup(key: Key, now: int)
    | Retune(maxEntries: int, minTTL: int, maxTTL: int, negMaxTTL: int)
    | Flush

  datatype State = State(items: seq<Entry>, limits: Sizes)

  function Step(s: State, op: Op): State
  {
    match op
    case Put(key, m, now) => s.(items := PutIn(s.items, s.limits, key, m, now))
    case Lookup(key, now) => s.(items := LookupIn(s.items, key, now).0)
    case Retune(n, lo, hi, neg) =>
      var l := Limits(if n < 1 then 1 else n, ToU32(lo), ToU32(hi), ToU32(neg));
      State(Shorten(s.items, l.maxEntries), l)
    case Flush => s.(items := [])
  }

  // The state after a history, started empty with limits l.
  function Run(l: Sizes, h: seq<Op>): (s: State)
  {
    if h == [] then State([], l) else Step(Run(l, h[..|h| - 1]), h[|h| - 1])
  }

  // A Put may read the clock before it gets the lock, but no lookup reads a time
  // earlier than one an earlier Put stored.
  ghost predicate Legal(h: seq<Op>) {
    forall i, j :: 0 <= i < j < |h| && h[i].Put? && h[j].Lookup? ==> h[i].now <= h[j].now
  }

  // The Put at i stored something.
  ghost predicate Stores(l: Sizes, h: seq<Op>, i: int)
  {
    0 <= i < |h| && h[i].Put? && TTLFor(Run(l, h[..i]).limits, h[i].m) != 0
  }

  function Stored(l: Sizes, h: seq<Op>, i: int): Entry
    requires 0 <= i < |h| && h[i].Put?
  {
    EntryFor(h[i].key, h[i].m, TTLFor(Run(l, h[..i]).limits, h[i].m), h[i].now)
  }

  ghost predicate DistinctKeys(s: seq<Entry>) {
    forall i, j :: 0 <= i < j < |s| ==> s[i].key != s[j].key
  }

  // e is what the Put at i stored, and nothing since replaced or flushed it.
  ghost predicate LastPut(l: Sizes, h: seq<Op>, i: int, e: Entry)
  {
    && Stores(l, h, i) && e == Stored(l, h, i)
    && forall j :: i < j < |h| ==> h[j] != Flush && !(Stores(l, h, j) && h[j].key == e.key)
  }

  // ----- one step -----

  lemma DropKeyDistinct(s: seq<Entry>, key: Key)
    requires DistinctKeys(s)
    ensures DistinctKeys(DropKey(s, key))
    ensures forall i :: 0 <= i < |DropKey(s, key)| ==> DropKey(s, key)[i].key != key && DropKey(s, key)[i] in s
  {
    var k := IndexOf(s, key);
    if k < |s| { WithoutMembers(s, k); }
  }

  lemma StepKeepsDistinct(s: State, op: Op)
    requires DistinctKeys(s.items)
    ensures DistinctKeys(Step(s, op).items)
  {
    if op.Put? || op.Lookup? { DropKeyDistinct(s.items, op.key); }
  }

  lemma {:induction false} KeysStayDistinct(l: Sizes, h: seq<Op>)
    ensures DistinctKeys(Run(l, h).items)
  {
    if h != [] {
      KeysStayDistinct(l, h[..|h| - 1]);
      StepKeepsDistinct(Run(l, h[..|h| - 1]), h[|h| - 1]);
    }
  }

  // The cache never holds more than its limit.
  lemma {:induction false} NeverOverLimit(l: Sizes, h: seq<Op>)
    ensures |Run(l, h).items| <= Run(l, h).limits.maxEntries
  {
    if h != [] {
      NeverOverLimit(l, h[..|h| - 1]);
    }
  }

  lemma PutMembers(s: seq<Entry>, l: Sizes, key: Key, m: Msg, now: int, e: Entry)
    requires DistinctKeys(s) && e in PutIn(s, l, key, m, now)
    ensures (TTLFor(l, m) != 0 && e == EntryFor(key, m, TTLFor(l, m), now))
      || (e in s && (TTLFor(l, m) != 0 ==> e.key != key))
  {
    DropKeyDistinct(s, key);
  }

  lemma LookupMembers(s: seq<Entry>, key: Key, now: int, e: Entry)
    requires e in LookupIn(s, key, now).0
    ensures e in s
  {
    var k := IndexOf(s, key);
    if k < |s| { WithoutMembers(s, k); }
  }

  // What is in the sequence after a step was there before or was just stored.
  lemma StepMembers(l: Sizes, h: seq<Op>, e: Entry)
    requires h != [] && e in Run(l, h).items
    ensures var n := |h| - 1;
      || (Stores(l, h, n) && e == Stored(l, h, n))
      || (e in Run(l, h[..n]).items && h[n] != Flush && !(Stores(l, h, n) && h[n].key == e.key))
  {
    var n := |h| - 1;
    var s := Run(l, h[..n]);
    KeysStayDistinct(l, h[..n]);
    match h[n]
    case Put(key, m, now) => PutMembers(s.items, s.limits, key, m, now, e);
    case Lookup(key, now) => LookupMembers(s.items, key, now, e);
    case _ =>
  }

  lemma LastPutExtends(l: Sizes, h: seq<Op>, i: int, e: Entry)
    requires h != [] && LastPut(l, h[..|h| - 1], i, e)
    requires h[|h| - 1] != Flush && !(Stores(l, h, |h| - 1) && h[|h| - 1].key == e.key)
    ensures LastPut(l, h, i, e)
  {
    var n := |h| - 1;
    forall j | 0 <= j < n ensures h[..n][j] == h[j] && h[..n][..j] == h[..j] {
    }
    assert Stores(l, h, i) && e == Stored(l, h, i);
    forall j | i < j < |h| ensures h[j] != Flush && !(Stores(l, h, j) && h[j].key == e.key) {
      if j < n {
        assert h[..n][j] == h[j] && h[..n][..j] == h[..j];
        assert h[..n][j] != Flush && !(Stores(l, h[..n], j) && h[..n][j].key == e.key);
      }
    }
  }

  // Every entry held is the last one stored under its key.
  lemma {:induction false} HoldsTheLastPut(l: Sizes, h: seq<Op>, e: Entry)
    requires e in Run(l, h).items
    ensures exists i :: LastPut(l, h, i, e)
  {
    var n := |h| - 1;
    StepMembers(l, h, e);
    if Stores(l, h, n) && e == Stored(l, h, n) {
      assert LastPut(l, h, n, e);
    } else {
      HoldsTheLastPut(l, h[..n], e);
      var i :| LastPut(l, h[..n], i, e);
      LastPutExtends(l, h, i, e);
    }
  }

  // ----- hits -----

  // Every TTL but OPT's is left, and left is at least one second.
  ghost predicate AllLeft(rrs: seq<RR>, left: int) {
    left >= 1 && forall i :: 0 <= i < |rrs| && !rrs[i].opt ==> rrs[i].ttl == left
  }

  // out is the message the Put at i stored, aged to now.
  ghost predicate AgedPut(l: Sizes, h: seq<Op>, i: int, now: int, out: Msg)
  {
    && Stores(l, h, i) && LastPut(l, h, i, Stored(l, h, i))
    && var e := Stored(l, h, i);
       && 0 <= now - e.stored < e.ttl
       && out == AgeMsg(StampMsg(h[i].m, e.ttl), now - e.stored)
       && AllLeft(out.answer, e.ttl - (now - e.stored)) && AllLeft(out.ns, e.ttl - (now - e.stored))
       && AllLeft(out.extra, e.ttl - (now - e.stored))
  }

  lemma AgedSections(m: Msg, ttl: U32, age: nat)
    requires age < ttl
    ensures var out := AgeMsg(StampMsg(m, ttl), age);
      AllLeft(out.answer, ttl - age) && AllLeft(out.ns, ttl - age) && AllLeft(out.extra, ttl - age)
  {
  }

  lemma StoredFacts(l: Sizes, h: seq<Op>, i: nat)
    requires Stores(l, h, i)
    ensures var e := Stored(l, h, i);
      && e.key == h[i].key && e.stored == h[i].now && e.expires == e.stored + e.ttl && e.ttl >= 1
      && e.msg == StampMsg(h[i].m, e.ttl)
  {
  }

  // A hit is the last message stored for the key, unexpired, with every TTL but
  // OPT's the stored TTL less the age, and never below one.
  lemma HitIsTheLastPutAged(l: Sizes, h: seq<Op>, key: Key, now: int) returns (i: nat)
    requires Legal(h + [Lookup(key, now)])
    requires LookupIn(Run(l, h).items, key, now).1.Some?
    ensures i < |h| && h[i].Put? && h[i].key == key
      && AgedPut(l, h, i, now, LookupIn(Run(l, h).items, key, now).1.value)
  {
    var e := FoundBy(Run(l, h).items, key, now);
    HoldsTheLastPut(l, h, e);
    i :| LastPut(l, h, i, e);
    LegalStore(h, i, key, now);
    StoredFacts(l, h, i);
    HitIsAged(l, h, i, now, e);
  }

  lemma FoundBy(items: seq<Entry>, key: Key, now: int) returns (e: Entry)
    requires LookupIn(items, key, now).1.Some?
    ensures e in items && e.key == key && now < e.expires
    ensures e.stored <= now ==> LookupIn(items, key, now).1.value == AgeMsg(e.msg, now - e.stored)
  {
    e := items[IndexOf(items, key)];
  }

  lemma LegalStore(h: seq<Op>, i: nat, key: Key, now: int)
    requires Legal(h + [Lookup(key, now)]) && i < |h| && h[i].Put?
    ensures h[i].now <= now
  {
    var g := h + [Lookup(key, now)];
    assert g[i] == h[i] && g[|h|] == Lookup(key, now);
  }

  lemma HitIsAged(l: Sizes, h: seq<Op>, i: nat, now: int, e: Entry)
    requires LastPut(l, h, i, e) && e.stored <= now < e.expires
    ensures AgedPut(l, h, i, now, AgeMsg(e.msg, now - e.stored))
  {
    StoredFacts(l, h, i);
    AgedSections(h[i].m, e.ttl, now - e.stored);
  }

  // ----- least recently used -----

  // The event at i used the key: it stored it, or found it alive.
  ghost predicate Uses(l: Sizes, h: seq<Op>, i: int, key: Key)
  {
    || (Stores(l, h, i) && h[i].key == key)
    || (0 <= i < |h| && h[i].Lookup? && h[i].key == key && LookupIn(Run(l, h[..i]).items, key, h[i].now).1.Some?)
  }

  ghost function LastUse(l: Sizes, h: seq<Op>, key: Key): int
  {
    if h == [] then -1
    else if Uses(l, h, |h| - 1, key) then |h| - 1
    else LastUse(l, h[..|h| - 1], key)
  }

  lemma {:induction false} LastUseBound(l: Sizes, h: seq<Op>, key: Key)
    ensures -1 <= LastUse(l, h, key) < |h|
  {
    if h != [] {
      LastUseBound(l, h[..|h| - 1], key);
    }
  }

  ghost predicate Descending(rank: Key -> int, s: seq<Entry>) {
    forall i, j :: 0 <= i < j < |s| ==> rank(s[i].key) > rank(s[j].key)
  }

  ghost function Recency(l: Sizes, h: seq<Op>): Key -> int {
    key => LastUse(l, h, key)
  }

  lemma DropKeepsDescending(rank: Key -> int, s: seq<Entry>, key: Key)
    requires Descending(rank, s)
    ensures Descending(rank, DropKey(s, key))
  {
  }

  // Using a key puts it above everything else and moves nothing else.
  lemma FrontIsHighest(before: Key -> int, after: Key -> int, e: Entry, s: seq<Entry>)
    requires Descending(before, s) && forall i :: 0 <= i < |s| ==> s[i].key != e.key
    requires forall k :: after(k) == if k == e.key then after(e.key) else before(k)
    requires forall k :: before(k) < after(e.key)
    ensures Descending(after, [e] + s)
  {
  }

  lemma RecencyAfter(l: Sizes, h: seq<Op>)
    requires h != []
    ensures var n := |h| - 1;
      forall key :: Recency(l, h)(key) == (if Uses(l, h, n, key) then n else Recency(l, h[..n])(key))
        && Recency(l, h[..n])(key) < n
  {
    var before := h[..|h| - 1];
    forall key ensures LastUse(l, before, key) < |before| { LastUseBound(l, before, key); }
  }

  lemma PutDescends(before: Key -> int, after: Key -> int, s: State, key: Key, m: Msg, now: int)
    requires Descending(before, s.items) && DistinctKeys(s.items)
    requires TTLFor(s.limits, m) == 0 ==> forall k :: after(k) == before(k)
    requires TTLFor(s.limits, m) != 0 ==> forall k :: after(k) == if k == key then after(key) else before(k)
    requires TTLFor(s.limits, m) != 0 ==> forall k :: before(k) < after(key)
    ensures Descending(after, PutIn(s.items, s.limits, key, m, now))
  {
    DropKeepsDescending(before, s.items, key);
    DropKeyDistinct(s.items, key);
    if TTLFor(s.limits, m) != 0 {
      FrontIsHighest(before, after, EntryFor(key, m, TTLFor(s.limits, m), now), DropKey(s.items, key));
    }
  }

  lemma LookupDescends(before: Key -> int, after: Key -> int, s: State, key: Key, now: int)
    requires Descending(before, s.items) && DistinctKeys(s.items)
    requires LookupIn(s.items, key, now).1.None? ==> forall k :: after(k) == before(k)
    requires LookupIn(s.items, key, now).1.Some? ==> forall k :: after(k) == if k == key then after(key) else before(k)
    requires LookupIn(s.items, key, now).1.Some? ==> forall k :: before(k) < after(key)
    ensures Descending(after, LookupIn(s.items, key, now).0)
  {
    DropKeepsDescending(before, s.items, key);
    DropKeyDistinct(s.items, key);
    if LookupIn(s.items, key, now).1.Some? {
      FrontIsHighest(before, after, s.items[IndexOf(s.items, key)], DropKey(s.items, key));
    }
  }

  // The sequence is always in order of last use, most recent first.
  lemma {:induction false} OrderedByLastUse(l: Sizes, h: seq<Op>)
    ensures Descending(Recency(l, h), Run(l, h).items)
  {
    if h != [] {
      var n := |h| - 1;
      var s := Run(l, h[..n]);
      OrderedByLastUse(l, h[..n]);
      KeysStayDistinct(l, h[..n]);
      RecencyAfter(l, h);
      match h[n]
      case Put(key, m, now) => PutDescends(Recency(l, h[..n]), Recency(l, h), s, key, m, now);
      case Lookup(key, now) => LookupDescends(Recency(l, h[..n]), Recency(l, h), s, key, now);
      case _ =>
    }
  }

  // What shortening cuts off ranks below everything it leaves.
  lemma CutIsLowest(rank: Key -> int, s: seq<Entry>, limit: nat, gone: Entry, kept: Entry)
    requires Descending(rank, s) && gone in s && gone !in Shorten(s, limit) && kept in Shorten(s, limit)
    ensures rank(kept.key) > rank(gone.key)
  {
  }

  // What a store pushes out was used less recently than everything it leaves.
  lemma EvictedIsLeastRecent(l: Sizes, h: seq<Op>, key: Key, m: Msg, now: int, gone: Entry, kept: Entry)
    requires gone in Run(l, h).items && gone.key != key
    requires var h' := h + [Put(key, m, now)]; gone !in Run(l, h').items && kept in Run(l, h').items
    ensures var h' := h + [Put(key, m, now)]; LastUse(l, h', kept.key) > LastUse(l, h', gone.key)
  {
    var h' := h + [Put(key, m, now)];
    assert h'[..|h|] == h;
    var s := Run(l, h);
    var ttl := TTLFor(s.limits, m);
    KeysStayDistinct(l, h);
    OrderedByLastUse(l, h);
    RecencyAfter(l, h');
    DropKeepsDescending(Recency(l, h), s.items, key);
    DropKeyDistinct(s.items, key);
    var e := EntryFor(key, m, ttl, now);
    FrontIsHighest(Recency(l, h), Recency(l, h'), e, DropKey(s.items, key));
    StaysAfterDrop(s.items, key, gone);
    CutIsLowest(Recency(l, h'), [e] + DropKey(s.items, key), s.limits.maxEntries, gone, kept);
  }

  lemma StaysAfterDrop(s: seq<Entry>, key: Key, e: Entry)
    requires e in s && e.key != key
    ensures e in DropKey(s, key)
  {
    var k := IndexOf(s, key);
    if k < |s| { WithoutMembers(s, k); }
  }

  // ----- the eviction loop -----

  // What n turns of the eviction loop leave: drop the last element, or nothing when
  // there is none to drop.
  function AfterTurns(s: seq<Entry>, n: nat): seq<Entry> {
    if n == 0 then s else if s == [] then AfterTurns(s, n - 1) else AfterTurns(s[..|s| - 1], n - 1)
  }

  lemma {:induction false} TurnsDrop(s: seq<Entry>, n: nat)
    ensures AfterTurns(s, n) == if n <= |s| then s[..|s| - n] else []
  {
    if n > 0 && s != [] {
      TurnsDrop(s[..|s| - 1], n - 1);
    } else if n > 0 {
      TurnsDrop(s, n - 1);
    }
  }

  // The loop comes to an end exactly when the limit is not negative.
  lemma EvictionEndsExactly(s: seq<Entry>, limit: int)
    ensures (exists n: nat :: |AfterTurns(s, n)| <= limit) <==> limit >= 0
  {
    TurnsDrop(s, |s|);
    if limit >= 0 {
      assert |AfterTurns(s, |s|)| <= limit;
    }
  }

  // ----- the bounds -----

  // A negative answer is kept no longer than the negative ceiling exactly when the
  // floor is not above it or the zone's own MINIMUM already reaches the floor.
  lemma NegativeCeiling(l: Sizes, m: Msg)
    requires Negative(m) && FirstSOA(m.ns).Some?
    ensures TTLFor(l, m) <= l.negMaxTTL <==> (l.minTTL <= l.negMaxTTL || FirstSOA(m.ns).value.minimum.value >= l.minTTL)
  {
  }

  // Section 5 of RFC 2308 keeps a negative answer no longer than the lesser of the SOA's
  // MINIMUM field and the SOA record's own TTL. The cache does so exactly when its floor
  // is not above MINIMUM, and MINIMUM or the ceiling is not above that TTL.
  lemma NegativeLifetimeExactly(l: Sizes, m: Msg)
    requires Negative(m) && FirstSOA(m.ns).Some?
    ensures var soa := FirstSOA(m.ns).value;
      var lesser := if soa.minimum.value < soa.ttl then soa.minimum.value else soa.ttl;
      TTLFor(l, m) <= lesser <==>
        l.minTTL <= soa.minimum.value && (soa.minimum.value <= soa.ttl || l.negMaxTTL <= soa.ttl)
  {
  }

  // The input: a name error whose SOA has 60 seconds to live and a MINIMUM of 300 is kept
  // for 300, under limits that leave both as they are.
  lemma NegativeOutlivesItsSOA()
    ensures var m := Msg(true, [], [RR(false, 60, Some(300), "")], []);
      TTLFor(Limits(10000, 1, 86400, 3600), m) == 300 && FirstSOA(m.ns).value.ttl == 60
  {
    var soa := RR(false, 60, Some(300), "");
    assert FirstSOA([soa]) == Some(soa);
  }
}
