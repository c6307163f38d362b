/** The cache as a client sees it, by question rather than by key: which questions share an
    entry, what a hit answers with, when there is one, and what a store pushes out. */
module CachedQuestions {
  import opened Wrappers
  import opened Net
  import opened Names
  import opened RingList
  import opened Cache
  import opened CacheFacts

  // ----- when two questions are one -----

  predicate SameLetter(a: char, b: char) {
    || a == b
    || ('A' <= a <= 'Z' && b as int == a as int + 32)
    || ('A' <= b <= 'Z' && a as int == b as int + 32)
  }

  // The name without the dot it may end in.
  function Bare(name: string): string {
    if name != "" && name[|name| - 1] == '.' then name[..|name| - 1] else name
  }

  // The names agree letter by letter up to ASCII case, whether or not either ends in a dot.
  predicate SameName(a: string, b: string) {
    |Bare(a)| == |Bare(b)| && forall i :: 0 <= i < |Bare(a)| ==> SameLetter(Bare(a)[i], Bare(b)[i])
  }

  predicate SameQuestion(q: Question, dnssecOK: bool, r: Question, other: bool) {
    q.qtype == r.qtype && dnssecOK == other && SameName(q.name, r.name)
  }

  lemma FqdnIsBare(name: string)
    ensures Fqdn(name) == Bare(name) + "."
  {
    if name != "" { assert name[|name| - 1..] == [name[|name| - 1]]; }
  }

  lemma LettersLower(a: char, b: char)
    ensures SameLetter(a, b) <==> LowerChar(a) == LowerChar(b)
  {
  }

  lemma LowerDotted(a: string, b: string)
    ensures Lower(a + ".") == Lower(b + ".") <==>
      |a| == |b| && forall i :: 0 <= i < |a| ==> SameLetter(a[i], b[i])
  {
    hide SameLetter, LowerChar;
    LowerConcat(a, ".");
    LowerConcat(b, ".");
    if Lower(a + ".") == Lower(b + ".") {
      assert |Lower(a)| == |Lower(b)|;
      assert Lower(a) == (Lower(a) + Lower("."))[..|a|] == Lower(b);
      forall i | 0 <= i < |a| ensures SameLetter(a[i], b[i]) {
        assert Lower(a)[i] == Lower(b)[i];
        LettersLower(a[i], b[i]);
      }
    } else if |a| == |b| && forall i :: 0 <= i < |a| ==> SameLetter(a[i], b[i]) {
      forall i | 0 <= i < |a| ensures Lower(a)[i] == Lower(b)[i] { LettersLower(a[i], b[i]); }
      assert Lower(a) == Lower(b);
    }
  }

  // Two questions share an entry exactly when they have one type, one DO flag and one name.
  lemma KeysAgreeExactly(q: Question, dnssecOK: bool, r: Question, other: bool)
    ensures KeyFor(q, dnssecOK) == KeyFor(r, other) <==> SameQuestion(q, dnssecOK, r, other)
  {
    hide Lower, LowerChar, Fqdn, Bare, SameLetter;
    FqdnIsBare(q.name);
    FqdnIsBare(r.name);
    LowerDotted(Bare(q.name), Bare(r.name));
  }

  // ----- histories of questions -----

  datatype Call =
    | Ask(q: Question, dnssecOK: bool, now: int)
    | Answered(q: Question, dnssecOK: bool, m: Msg, now: int)
    | Resize(maxEntries: int, minTTL: int, maxTTL: int, negMaxTTL: int)
    | Empty

  function OpOf(c: Call): Op {
    match c
    case Ask(q, dnssecOK, now) => Lookup(KeyFor(q, dnssecOK), now)
    case Answered(q, dnssecOK, m, now) => Put(KeyFor(q, dnssecOK), m, now)
    case Resize(n, lo, hi, neg) => Retune(n, lo, hi, neg)
    case Empty => Flush
  }

  function Ops(calls: seq<Call>): (h: seq<Op>)
    ensures |h| == |calls| && forall i :: 0 <= i < |calls| ==> h[i] == OpOf(calls[i])
  {
    seq(|calls|, i requires 0 <= i < |calls| => OpOf(calls[i]))
  }

  function Held(l: Sizes, calls: seq<Call>): seq<Entry> { Run(l, Ops(calls)).items }

  // The message a question is answered with from the cache.
  function Found(l: Sizes, calls: seq<Call>, q: Question, dnssecOK: bool, now: int): Option<Msg> {
    LookupIn(Held(l, calls), KeyFor(q, dnssecOK), now).1
  }

  // The answer to this question at i was stored, and none to it since, nor a flush.
  ghost predicate LastAnswer(l: Sizes, calls: seq<Call>, i: int, q: Question, dnssecOK: bool) {
    && 0 <= i < |calls| && calls[i].Answered? && Stores(l, Ops(calls), i)
    && SameQuestion(calls[i].q, calls[i].dnssecOK, q, dnssecOK)
    && forall j :: i < j < |calls| ==>
         && !calls[j].Empty?
         && !(calls[j].Answered? && Stores(l, Ops(calls), j)
              && SameQuestion(calls[j].q, calls[j].dnssecOK, q, dnssecOK))
  }

  // The same records, all but OPT with this much left to live.
  predicate Recounted(was: seq<RR>, now: seq<RR>, left: int) {
    |now| == |was| && forall i :: 0 <= i < |was| ==>
      && now[i].opt == was[i].opt && now[i].data == was[i].data && now[i].minimum == was[i].minimum
      && now[i].ttl == (if was[i].opt then was[i].ttl else left)
  }

  lemma LastPutIsLastAnswer(l: Sizes, calls: seq<Call>, i: int, e: Entry, q: Question, dnssecOK: bool)
    requires LastPut(l, Ops(calls), i, e) && e.key == KeyFor(q, dnssecOK)
    ensures LastAnswer(l, calls, i, q, dnssecOK)
  {
    var h := Ops(calls);
    hide KeyFor, SameQuestion, Run, TTLFor, EntryFor;
    assert h[i] == OpOf(calls[i]) && h[i].key == e.key by { StoredFacts(l, h, i); }
    KeysAgreeExactly(calls[i].q, calls[i].dnssecOK, q, dnssecOK);
    forall j | i < j < |calls| && calls[j].Answered? && Stores(l, h, j)
      ensures !SameQuestion(calls[j].q, calls[j].dnssecOK, q, dnssecOK)
    {
      assert h[j] == OpOf(calls[j]);
      KeysAgreeExactly(calls[j].q, calls[j].dnssecOK, q, dnssecOK);
    }
  }

  // An entry the cache holds is the last answer to its question that was stored.
  lemma HoldsTheLastAnswer(l: Sizes, calls: seq<Call>, e: Entry, q: Question, dnssecOK: bool)
    requires e in Held(l, calls) && e.key == KeyFor(q, dnssecOK)
    ensures exists i :: LastAnswer(l, calls, i, q, dnssecOK) && e == Stored(l, Ops(calls), i)
  {
    HoldsTheLastPut(l, Ops(calls), e);
    var i :| LastPut(l, Ops(calls), i, e);
    LastPutIsLastAnswer(l, calls, i, e, q, dnssecOK);
  }

  lemma AgeingRecounts(m: Msg, ttl: U32, age: nat)
    requires age < ttl
    ensures var out := AgeMsg(StampMsg(m, ttl), age);
      && out.nameError == m.nameError && Recounted(m.answer, out.answer, ttl - age)
      && Recounted(m.ns, out.ns, ttl - age) && Recounted(m.extra, out.extra, ttl - age)
  {
  }

  // The time a stored answer is kept, from when it came.
  function Lifetime(l: Sizes, calls: seq<Call>, i: nat): U32
    requires i < |calls| && calls[i].Answered?
  {
    TTLFor(Run(l, Ops(calls[..i])).limits, calls[i].m)
  }

  // out is that answer, its records as they came but with left, what is left of its
  // lifetime, as the TTL of each.
  ghost predicate AnswersWith(l: Sizes, calls: seq<Call>, i: nat, now: int, out: Msg) {
    && i < |calls| && calls[i].Answered?
    && var was, left := calls[i].m, calls[i].now + Lifetime(l, calls, i) - now;
       && 0 < left <= Lifetime(l, calls, i) && out.nameError == was.nameError
       && Recounted(was.answer, out.answer, left) && Recounted(was.ns, out.ns, left)
       && Recounted(was.extra, out.extra, left)
  }

  // A hit is the last answer stored to that question and to no other, aged.
  lemma HitIsTheLastAnswer(l: Sizes, calls: seq<Call>, q: Question, dnssecOK: bool, now: int) returns (i: nat)
    requires Legal(Ops(calls) + [Lookup(KeyFor(q, dnssecOK), now)])
    requires Found(l, calls, q, dnssecOK, now).Some?
    ensures LastAnswer(l, calls, i, q, dnssecOK)
    ensures AnswersWith(l, calls, i, now, Found(l, calls, q, dnssecOK, now).value)
  {
    i := HitIsTheLastPutAged(l, Ops(calls), KeyFor(q, dnssecOK), now);
    AgedPutAnswers(l, calls, i, now, Found(l, calls, q, dnssecOK, now).value, q, dnssecOK);
  }

  lemma AgedPutAnswers(l: Sizes, calls: seq<Call>, i: nat, now: int, out: Msg, q: Question, dnssecOK: bool)
    requires AgedPut(l, Ops(calls), i, now, out) && i < |calls| && Ops(calls)[i].key == KeyFor(q, dnssecOK)
    ensures LastAnswer(l, calls, i, q, dnssecOK) && AnswersWith(l, calls, i, now, out)
  {
    hide LastPut, LastAnswer, Run, KeyFor, TTLFor, AgeMsg, StampMsg, Recounted, AllLeft;
    StoredLives(l, calls, i);
    StoredFacts(l, Ops(calls), i);
    LastPutIsLastAnswer(l, calls, i, Stored(l, Ops(calls), i), q, dnssecOK);
    hide Stores, Stored;
    AgeingRecounts(calls[i].m, Lifetime(l, calls, i), now - calls[i].now);
  }

  lemma StoredLives(l: Sizes, calls: seq<Call>, i: nat)
    requires i < |calls| && calls[i].Answered?
    ensures Ops(calls)[i].Put? && Ops(calls)[i].m == calls[i].m && Ops(calls)[i].now == calls[i].now
    ensures Stored(l, Ops(calls), i).ttl == Lifetime(l, calls, i)
  {
    assert Ops(calls)[i] == OpOf(calls[i]);
    assert Ops(calls)[..i] == Ops(calls[..i]);
  }

  // ----- when there is a hit -----

  lemma IndexFinds(s: seq<Entry>, key: Key, e: Entry)
    requires DistinctKeys(s) && e in s && e.key == key
    ensures IndexOf(s, key) < |s| && s[IndexOf(s, key)] == e
  {
    var j :| 0 <= j < |s| && s[j] == e;
    assert IndexOf(s, key) <= j;
  }

  // A question is a hit exactly when an answer to it is held that has not run out.
  lemma HitExactly(l: Sizes, calls: seq<Call>, q: Question, dnssecOK: bool, now: int)
    ensures Found(l, calls, q, dnssecOK, now).Some? <==>
      exists e :: e in Held(l, calls) && e.key == KeyFor(q, dnssecOK) && now < e.expires
  {
    var s, key := Held(l, calls), KeyFor(q, dnssecOK);
    KeysStayDistinct(l, Ops(calls));
    hide KeyFor, Run, AgeMsg;
    if Found(l, calls, q, dnssecOK, now).Some? { assert s[IndexOf(s, key)] in s; }
    if e :| e in s && e.key == key && now < e.expires { IndexFinds(s, key, e); }
  }

  lemma OneMoreCall(l: Sizes, calls: seq<Call>, c: Call)
    ensures Run(l, Ops(calls + [c])) == Step(Run(l, Ops(calls)), OpOf(c))
  {
    hide PutIn, LookupIn, KeyFor, Shorten;
    assert Ops(calls + [c])[..|calls|] == Ops(calls);
  }

  // Asking drops the answer to the question if it has run out, and loses nothing else. A
  // hit becomes the most recently used.
  lemma AskingKeepsExactly(l: Sizes, calls: seq<Call>, q: Question, dnssecOK: bool, now: int, e: Entry)
    ensures var after := Held(l, calls + [Ask(q, dnssecOK, now)]);
      && (e in after <==> e in Held(l, calls) && !(e.key == KeyFor(q, dnssecOK) && e.expires <= now))
      && (Found(l, calls, q, dnssecOK, now).Some? ==> after != [] && after[0].key == KeyFor(q, dnssecOK))
  {
    var s, key := Held(l, calls), KeyFor(q, dnssecOK);
    KeysStayDistinct(l, Ops(calls));
    OneMoreCall(l, calls, Ask(q, dnssecOK, now));
    LookupKeepsExactly(s, key, now, e);
  }

  lemma LookupKeepsExactly(s: seq<Entry>, key: Key, now: int, e: Entry)
    requires DistinctKeys(s)
    ensures e in LookupIn(s, key, now).0 <==> e in s && !(e.key == key && e.expires <= now)
    ensures LookupIn(s, key, now).1.Some? ==> |LookupIn(s, key, now).0| > 0 && LookupIn(s, key, now).0[0].key == key
  {
    hide AgeMsg;
    var k := IndexOf(s, key);
    if k < |s| { WithoutMembers(s, k); }
    if e in s && e.key == key { IndexFinds(s, key, e); }
    DropKeyDistinct(s, key);
  }

  // The cache is full and holds nothing under the key, and e is the least recently used.
  predicate PushedOut(s: seq<Entry>, key: Key, limit: int, e: Entry) {
    s != [] && |s| == limit && e == s[|s| - 1] && forall o :: o in s ==> o.key != key
  }

  // An answer is stored in front, over any to the same question. It pushes out another only
  // when the cache is full and held none to the question: then the last one goes.
  lemma StoringKeepsExactly(l: Sizes, calls: seq<Call>, q: Question, dnssecOK: bool, m: Msg, now: int, e: Entry)
    requires Run(l, Ops(calls)).limits.maxEntries >= 1
    ensures var limits, before := Run(l, Ops(calls)).limits, Held(l, calls);
      var after := Held(l, calls + [Answered(q, dnssecOK, m, now)]);
      if TTLFor(limits, m) == 0 then after == before
      else
        var stored := Entry(KeyFor(q, dnssecOK), StampMsg(m, TTLFor(limits, m)), now, now + TTLFor(limits, m),
                            TTLFor(limits, m));
        && after != [] && after[0] == stored
        && (e in after <==>
              e == stored
                || (e in before && e.key != stored.key && !PushedOut(before, stored.key, limits.maxEntries, e)))
  {
    var s := Run(l, Ops(calls));
    KeysStayDistinct(l, Ops(calls));
    NeverOverLimit(l, Ops(calls));
    OneMoreCall(l, calls, Answered(q, dnssecOK, m, now));
    if TTLFor(s.limits, m) != 0 {
      FrontKeepsExactly(s.items, EntryFor(KeyFor(q, dnssecOK), m, TTLFor(s.limits, m), now), s.limits.maxEntries, e);
    }
  }

  lemma FrontKeepsExactly(s: seq<Entry>, stored: Entry, limit: nat, e: Entry)
    requires DistinctKeys(s) && |s| <= limit && limit >= 1
    ensures var after := Shorten([stored] + DropKey(s, stored.key), limit);
      && after != [] && after[0] == stored
      && (e in after <==> e == stored || (e in s && e.key != stored.key && !PushedOut(s, stored.key, limit, e)))
  {
    var k := IndexOf(s, stored.key);
    var rest := DropKey(s, stored.key);
    var full := [stored] + rest;
    DropKeyDistinct(s, stored.key);
    if k < |s| {
      assert s[k] in s && s[k].key == stored.key;
      WithoutMembers(s, k);
      assert Shorten(full, limit) == full;
    } else if |s| == limit {
      assert forall o :: o in s ==> o.key != stored.key;
      assert Shorten(full, limit) == [stored] + s[..|s| - 1];
      assert s == s[..|s| - 1] + [s[|s| - 1]];
    }
    if e in s && e.key != stored.key { StaysAfterDrop(s, stored.key, e); }
  }

  // Resizing keeps the most recently used entries, as many as fit, and at least one.
  lemma ResizingKeepsExactly(l: Sizes, calls: seq<Call>, n: int, lo: int, hi: int, neg: int)
    ensures var room := if n < 1 then 1 else n;
      var before, after := Held(l, calls), Held(l, calls + [Resize(n, lo, hi, neg)]);
      && after == (if |before| <= room then before else before[..room])
      && Run(l, Ops(calls + [Resize(n, lo, hi, neg)])).limits.maxEntries == room
  {
    OneMoreCall(l, calls, Resize(n, lo, hi, neg));
  }

  // ----- lifetimes -----

  lemma {:induction false} LowestIsLeast(rrs: seq<RR>, i: nat)
    requires i < |rrs| && forall j :: 0 <= j < |rrs| ==> rrs[i].ttl <= rrs[j].ttl
    ensures Lowest(rrs) == rrs[i].ttl
  {
    var n := |rrs| - 1;
    if i < n {
      LowestIsLeast(rrs[..n], i);
    } else {
      LowestIsBetween(rrs[..n], rrs[n].ttl);
    }
  }

  lemma {:induction false} LowestIsBetween(rrs: seq<RR>, floor: U32)
    requires forall j :: 0 <= j < |rrs| ==> floor <= rrs[j].ttl
    ensures floor <= Lowest(rrs)
  {
    if rrs != [] {
      LowestIsBetween(rrs[..|rrs| - 1], floor);
    }
  }

  // An answer with records is kept for the least of their TTLs, put within the limits; so
  // it outlives that record exactly when the floor is above it.
  lemma PositiveLifetimeExactly(l: Limits, m: Msg, i: nat)
    requires !m.nameError && i < |m.answer| && forall j :: 0 <= j < |m.answer| ==> m.answer[i].ttl <= m.answer[j].ttl
    ensures TTLFor(l, m) == (if m.answer[i].ttl < l.minTTL then l.minTTL
                             else if m.answer[i].ttl > l.maxTTL then l.maxTTL else m.answer[i].ttl)
    ensures TTLFor(l, m) > m.answer[i].ttl <==> l.minTTL > m.answer[i].ttl
  {
    LowestIsLeast(m.answer, i);
  }

  lemma {:induction false} FirstSOAIsFirst(rrs: seq<RR>, i: nat)
    requires i < |rrs| && rrs[i].minimum.Some? && forall j :: 0 <= j < i ==> rrs[j].minimum.None?
    ensures FirstSOA(rrs) == Some(rrs[i])
  {
    if i > 0 {
      FirstSOAIsFirst(rrs[1..], i - 1);
    }
  }

  lemma {:induction false} NoSOA(rrs: seq<RR>)
    requires forall j :: 0 <= j < |rrs| ==> rrs[j].minimum.None?
    ensures FirstSOA(rrs) == None
  {
    if rrs != [] {
      NoSOA(rrs[1..]);
    }
  }

  // The first SOA among these records.
  predicate IsFirstSOA(rrs: seq<RR>, i: int) {
    0 <= i < |rrs| && rrs[i].minimum.Some? && forall j :: 0 <= j < i ==> rrs[j].minimum.None?
  }

  // One without is kept for the MINIMUM of the first SOA that comes with it, put within the
  // limits for such; without a SOA it is not kept.
  lemma NegativeLifetime(l: Limits, m: Msg)
    requires m.nameError || m.answer == []
    ensures forall i :: IsFirstSOA(m.ns, i) ==>
      TTLFor(l, m) == (if m.ns[i].minimum.value < l.minTTL then l.minTTL
                       else if m.ns[i].minimum.value > l.negMaxTTL then l.negMaxTTL else m.ns[i].minimum.value)
    ensures (forall j :: 0 <= j < |m.ns| ==> m.ns[j].minimum.None?) ==> TTLFor(l, m) == 0
  {
    forall i | IsFirstSOA(m.ns, i) ensures FirstSOA(m.ns) == Some(m.ns[i]) { FirstSOAIsFirst(m.ns, i); }
    if forall j :: 0 <= j < |m.ns| ==> m.ns[j].minimum.None? { NoSOA(m.ns); }
  }
}
