/** The response cache: a map and a recency list over the same elements, TTL
    clamping on the way in and ageing on the way out. */
module Cache {
  import opened Wrappers
  import opened Net
  import opened Names
  import opened RingList

  // A record as the cache sees it: whether it is the OPT pseudo-record, its TTL,
  // the MINIMUM field when it is a SOA, and everything else.
  datatype RR = RR(opt: bool, ttl: U32, minimum: Option<U32>, data: string)

  datatype Msg = Msg(nameError: bool, answer: seq<RR>, ns: seq<RR>, extra: seq<RR>)

  datatype Question = Question(name: string, qtype: nat)

  datatype Key = Key(name: string, qtype: nat, dnssecOK: bool)

  datatype Entry = Entry(key: Key, msg: Msg, stored: int, expires: int, ttl: U32)

  datatype Limits = Limits(maxEntries: int, minTTL: U32, maxTTL: U32, negMaxTTL: U32)

  function KeyFor(q: Question, dnssecOK: bool): Key {
    Key(Lower(Fqdn(q.name)), q.qtype, dnssecOK)
  }

  // Go's conversion of an int to uint32.
  function ToU32(n: int): U32 {
    n % 0x1_0000_0000
  }

  function Clamp(v: U32, lo: U32, hi: U32): U32 {
    if v < lo then lo else if v > hi then hi else v
  }

  // ----- TTLs -----

  function FirstSOA(rrs: seq<RR>): (r: Option<RR>)
    ensures r.Some? ==> r.value in rrs && r.value.minimum.Some?
  {
    if rrs == [] then None else if rrs[0].minimum.Some? then Some(rrs[0]) else FirstSOA(rrs[1..])
  }

  function Lowest(rrs: seq<RR>): U32 {
    if rrs == [] then 0xFFFF_FFFF
    else
      var rest := Lowest(rrs[..|rrs| - 1]);
      if rrs[|rrs| - 1].ttl < rest then rrs[|rrs| - 1].ttl else rest
  }

  predicate Negative(m: Msg) { m.nameError || m.answer == [] }

  // How long an answer may be kept; 0 means not at all.
  function TTLFor(l: Limits, m: Msg): U32 {
    if Negative(m) then
      (match FirstSOA(m.ns)
       case Some(soa) => Clamp(soa.minimum.value, l.minTTL, l.negMaxTTL)
       case None => 0)
    else Clamp(Lowest(m.answer), l.minTTL, l.maxTTL)
  }

  function Stamped(rr: RR, ttl: U32): RR {
    if rr.opt then rr else rr.(ttl := ttl)
  }

  function Aged(rr: RR, age: nat): RR {
    if rr.opt then rr else rr.(ttl := if rr.ttl > age then rr.ttl - age else 0)
  }

  function StampAll(rrs: seq<RR>, ttl: U32): (r: seq<RR>)
    ensures |r| == |rrs| && forall i :: 0 <= i < |rrs| ==> r[i] == Stamped(rrs[i], ttl)
  {
    seq(|rrs|, i requires 0 <= i < |rrs| => Stamped(rrs[i], ttl))
  }

  function AgeAll(rrs: seq<RR>, age: nat): (r: seq<RR>)
    ensures |r| == |rrs| && forall i :: 0 <= i < |rrs| ==> r[i] == Aged(rrs[i], age)
  {
    seq(|rrs|, i requires 0 <= i < |rrs| => Aged(rrs[i], age))
  }

  function StampMsg(m: Msg, ttl: U32): Msg {
    m.(answer := StampAll(m.answer, ttl), ns := StampAll(m.ns, ttl), extra := StampAll(m.extra, ttl))
  }

  function AgeMsg(m: Msg, age: nat): Msg {
    m.(answer := AgeAll(m.answer, age), ns := AgeAll(m.ns, age), extra := AgeAll(m.extra, age))
  }

  function EntryFor(key: Key, m: Msg, ttl: U32, now: int): Entry {
    Entry(key, StampMsg(m, ttl), now, now + ttl, ttl)
  }

  // ----- the reference: one sequence, most recently used first -----

  function IndexOf(s: seq<Entry>, key: Key): (i: nat)
    ensures i <= |s|
    ensures i < |s| ==> s[i].key == key
    ensures forall j :: 0 <= j < i ==> s[j].key != key
  {
    if s == [] then 0 else if s[0].key == key then 0 else 1 + IndexOf(s[1..], key)
  }

  function DropKey(s: seq<Entry>, key: Key): seq<Entry> {
    var i := IndexOf(s, key);
    if i < |s| then Without(s, i) else s
  }

  function Shorten(s: seq<Entry>, limit: nat): seq<Entry> {
    if |s| <= limit then s else s[..limit]
  }

  function LookupIn(s: seq<Entry>, key: Key, now: int): (seq<Entry>, Option<Msg>) {
    var i := IndexOf(s, key);
    if i == |s| then (s, None)
    else if now >= s[i].expires then (Without(s, i), None)
    else ([s[i]] + Without(s, i), Some(AgeMsg(s[i].msg, if now >= s[i].stored then now - s[i].stored else 0)))
  }

  function PutIn(s: seq<Entry>, l: Limits, key: Key, m: Msg, now: int): seq<Entry>
    requires l.maxEntries >= 0
  {
    var ttl := TTLFor(l, m);
    if ttl == 0 then s else Shorten([EntryFor(key, m, ttl, now)] + DropKey(s, key), l.maxEntries)
  }

  // ----- the object -----

  function Values(elems: seq<Element<Entry>>): (r: seq<Entry>)
    ensures |r| == |elems| && forall i :: 0 <= i < |elems| ==> r[i] == elems[i].value
  {
    seq(|elems|, i requires 0 <= i < |elems| => elems[i].value)
  }

  // The map holds exactly the listed elements, each under its own key.
  ghost predicate Agree(entries: map<Key, Element<Entry>>, elems: seq<Element<Entry>>) {
    && (forall i :: 0 <= i < |elems| ==> elems[i].value.key in entries && entries[elems[i].value.key] == elems[i])
    && (forall k :: k in entries ==> entries[k] in elems && entries[k].value.key == k)
  }

  lemma AgreeToFront(entries: map<Key, Element<Entry>>, elems: seq<Element<Entry>>, k: nat)
    requires Agree(entries, elems) && k < |elems|
    ensures Agree(entries, [elems[k]] + Without(elems, k))
  {
    WithoutMembers(elems, k);
  }

  lemma FrontMembers(elems: seq<Element<Entry>>, k: nat)
    requires k < |elems|
    ensures forall e :: e in [elems[k]] + Without(elems, k) ==> e in elems
    ensures Values([elems[k]] + Without(elems, k)) == [elems[k].value] + Without(Values(elems), k)
  {
    WithoutMembers(elems, k);
  }

  lemma AgreeWithFront(entries: map<Key, Element<Entry>>, elems: seq<Element<Entry>>, e: Element<Entry>)
    requires Agree(entries, elems) && e.value.key !in entries
    ensures Agree(entries[e.value.key := e], [e] + elems)
  {
  }

  lemma AgreeWithout(entries: map<Key, Element<Entry>>, elems: seq<Element<Entry>>, k: nat)
    requires Agree(entries, elems) && k < |elems| && Distinct(elems)
    ensures Agree(entries - {elems[k].value.key}, Without(elems, k))
  {
    WithoutMembers(elems, k);
  }

  class Cache {
    var entries: map<Key, Element<Entry>>
    const order: List<Entry>
    var limits: Limits

    ghost function Items(): seq<Entry>
      reads this, order
    {
      Values(order.elems)
    }

    ghost predicate Valid()
      reads this, order, order.root, order.elems
    {
      order.Valid() && Agree(entries, order.elems) && limits.maxEntries >= 0
    }

    // Every listed element was listed before or is new.
    twostate predicate KnownOrNew(before: seq<Element<Entry>>)
      reads this, order
    {
      forall e :: e in order.elems ==> e in before || fresh(e)
    }

    ghost predicate NotBefore(now: int)
      reads this, order
    {
      forall i :: 0 <= i < |order.elems| ==> order.elems[i].value.stored <= now
    }

    constructor (maxEntries: int, minTTL: int, maxTTL: int, negMaxTTL: int)
      requires maxEntries >= 0
      ensures Valid() && Items() == [] && fresh(order) && fresh(order.root)
      ensures limits == Limits(maxEntries, ToU32(minTTL), ToU32(maxTTL), ToU32(negMaxTTL))
    {
      entries := map[];
      order := new List(Entry(Key("", 0, false), Msg(false, [], [], []), 0, 0, 0));
      limits := Limits(maxEntries, ToU32(minTTL), ToU32(maxTTL), ToU32(negMaxTTL));
    }

    // Where the map points is where the sequence finds the key.
    lemma Located(key: Key)
      requires Valid()
      ensures key in entries <==> IndexOf(Items(), key) < |Items()|
      ensures key in entries ==> order.elems[IndexOf(Items(), key)] == entries[key]
    {
      var i := IndexOf(Items(), key);
      if key in entries {
        var j :| 0 <= j < |order.elems| && order.elems[j] == entries[key];
        assert Items()[j].key == key;
        assert i <= j;
        assert Items()[i].key == key;
      }
      if i < |Items()| {
        assert Items()[i].key == key;
      }
    }

    method Lookup(q: Question, dnssecOK: bool, now: int) returns (out: Option<Msg>)
      requires Valid() && NotBefore(now)
      modifies this, order, order.root, order.elems
      ensures Valid() && limits == old(limits) && KnownOrNew(old(order.elems))
      ensures (Items(), out) == LookupIn(old(Items()), KeyFor(q, dnssecOK), now)
    {
      var key := KeyFor(q, dnssecOK);
      Located(key);
      if key !in entries {
        return None;
      }
      var el := entries[key];
      ghost var k := IndexOf(Items(), key);
      assert el.value == Items()[k];
      if now >= el.value.expires {
        RemoveLocked(el, k);
        return None;
      }
      Touch(el, k);
      var aged := AgedCopy(el.value.msg, now - el.value.stored);
      out := Some(aged);
    }

    method Touch(el: Element<Entry>, ghost k: nat)
      requires Valid() && k < |order.elems| && order.elems[k] == el
      modifies this, order, order.root, order.elems
      ensures Valid() && limits == old(limits) && KnownOrNew(old(order.elems))
      ensures Items() == [el.value] + Without(old(Items()), k)
    {
      ghost var was := order.elems;
      FrontMembers(was, k);
      AgreeToFront(entries, was, k);
      order.MoveToFront(el, k);
    }

    method Put(q: Question, dnssecOK: bool, m: Option<Msg>, now: int)
      requires Valid()
      modifies this, order, order.root, order.elems
      ensures Valid() && KnownOrNew(old(order.elems)) && limits == old(limits)
      ensures m == None ==> Items() == old(Items())
      ensures m != None ==> Items() == PutIn(old(Items()), limits, KeyFor(q, dnssecOK), m.value, now)
    {
      if m == None {
        return;
      }
      var ttl := LifetimeOf(m.value);
      if ttl == 0 {
        return;
      }
      var stamped := StampedCopy(m.value, ttl);
      var entry := Entry(KeyFor(q, dnssecOK), stamped, now, now + ttl, ttl);
      assert entry == EntryFor(KeyFor(q, dnssecOK), m.value, ttl, now);
      Store(entry);
    }

    method Store(entry: Entry)
      requires Valid()
      modifies this, order, order.root, order.elems
      ensures Valid() && KnownOrNew(old(order.elems)) && limits == old(limits)
      ensures Items() == Shorten([entry] + DropKey(old(Items()), entry.key), limits.maxEntries)
    {
      DropStored(entry.key);
      AddFront(entry);
      EvictOver();
    }

    method DropStored(key: Key)
      requires Valid()
      modifies this, order, order.root, order.elems
      ensures Valid() && KnownOrNew(old(order.elems)) && limits == old(limits)
      ensures Items() == DropKey(old(Items()), key) && key !in entries
    {
      Located(key);
      if key in entries {
        ghost var k := IndexOf(Items(), key);
        RemoveLocked(entries[key], k);
      }
    }

    method AddFront(entry: Entry)
      requires Valid() && entry.key !in entries
      modifies this, order, order.root, order.elems
      ensures Valid() && KnownOrNew(old(order.elems)) && limits == old(limits)
      ensures Items() == [entry] + old(Items())
    {
      ghost var was := order.elems;
      var el := order.PushFront(entry);
      AgreeWithFront(entries, was, el);
      entries := entries[entry.key := el];
    }

    method EvictLast()
      requires Valid() && order.elems != []
      modifies this, order, order.root, order.elems
      ensures Valid() && limits == old(limits)
      ensures order.elems == old(order.elems)[..|old(order.elems)| - 1]
    {
      var last := order.Back();
      RemoveLocked(last, |order.elems| - 1);
    }

    method EvictOver()
      requires Valid()
      modifies this, order, order.root, order.elems
      ensures Valid() && KnownOrNew(old(order.elems)) && limits == old(limits)
      ensures Items() == Shorten(old(Items()), limits.maxEntries)
    {
      ghost var was := order.elems;
      while order.len > limits.maxEntries
        invariant Valid() && limits == old(limits)
        invariant |order.elems| <= |was| && order.elems == was[..|order.elems|]
        invariant |order.elems| >= limits.maxEntries || order.elems == was
        decreases order.len
      {
        EvictLast();
      }
      assert Items() == Values(was)[..|order.elems|];
    }

    method Retune(maxEntries: int, minTTL: int, maxTTL: int, negMaxTTL: int)
      requires Valid()
      modifies this, order, order.root, order.elems
      ensures Valid() && KnownOrNew(old(order.elems))
      ensures limits == Limits(if maxEntries < 1 then 1 else maxEntries, ToU32(minTTL), ToU32(maxTTL), ToU32(negMaxTTL))
      ensures Items() == Shorten(old(Items()), limits.maxEntries)
    {
      limits := Limits(if maxEntries < 1 then 1 else maxEntries, ToU32(minTTL), ToU32(maxTTL), ToU32(negMaxTTL));
      EvictOver();
    }

    method RemoveLocked(el: Element?<Entry>, ghost k: nat)
      requires Valid() && k < |order.elems| && order.elems[k] == el
      modifies this, order, order.root, order.elems
      ensures Valid() && limits == old(limits)
      ensures order.elems == Without(old(order.elems), k) && KnownOrNew(old(order.elems))
      ensures Items() == Without(old(Items()), k) && el.value.key !in entries
    {
      WithoutMembers(order.elems, k);
      if el == null {
        return;
      }
      AgreeWithout(entries, order.elems, k);
      entries := entries - {el.value.key};
      order.Remove(el, k);
    }

    method Flush()
      requires Valid()
      modifies this, order, order.root, order.elems
      ensures Valid() && Items() == [] && limits == old(limits) && KnownOrNew(old(order.elems))
    {
      entries := map[];
      order.Init();
    }

    method Len() returns (n: nat)
      requires Valid()
      ensures n == |Items()|
    {
      n := order.len;
    }

    method LifetimeOf(m: Msg) returns (ttl: U32)
      ensures ttl == TTLFor(limits, m)
    {
      if m.nameError || |m.answer| == 0 {
        for i := 0 to |m.ns|
          invariant FirstSOA(m.ns) == FirstSOA(m.ns[i..])
        {
          if m.ns[i].minimum.Some? {
            return Clamp(m.ns[i].minimum.value, limits.minTTL, limits.negMaxTTL);
          }
        }
        return 0;
      }
      var lowest: U32 := 0xFFFF_FFFF;
      for i := 0 to |m.answer|
        invariant lowest == Lowest(m.answer[..i])
      {
        assert m.answer[..i + 1][..i] == m.answer[..i];
        if m.answer[i].ttl < lowest {
          lowest := m.answer[i].ttl;
        }
      }
      assert m.answer[..|m.answer|] == m.answer;
      ttl := Clamp(lowest, limits.minTTL, limits.maxTTL);
    }
  }

  method AgedCopy(m: Msg, age: nat) returns (out: Msg)
    ensures out == AgeMsg(m, age)
  {
    var answer := AgeSection(m.answer, age);
    var ns := AgeSection(m.ns, age);
    var extra := AgeSection(m.extra, age);
    out := m.(answer := answer, ns := ns, extra := extra);
  }

  method StampedCopy(m: Msg, ttl: U32) returns (out: Msg)
    ensures out == StampMsg(m, ttl)
  {
    var answer := StampSection(m.answer, ttl);
    var ns := StampSection(m.ns, ttl);
    var extra := StampSection(m.extra, ttl);
    out := m.(answer := answer, ns := ns, extra := extra);
  }

  method AgeSection(rrs: seq<RR>, age: nat) returns (out: seq<RR>)
    ensures out == AgeAll(rrs, age)
  {
    out := rrs;
    for i := 0 to |rrs|
      invariant |out| == |rrs|
      invariant forall j :: 0 <= j < i ==> out[j] == Aged(rrs[j], age)
      invariant forall j :: i <= j < |rrs| ==> out[j] == rrs[j]
    {
      if !out[i].opt {
        out := out[i := out[i].(ttl := if out[i].ttl > age then out[i].ttl - age else 0)];
      }
    }
  }

  method StampSection(rrs: seq<RR>, ttl: U32) returns (out: seq<RR>)
    ensures out == StampAll(rrs, ttl)
  {
    out := rrs;
    for i := 0 to |rrs|
      invariant |out| == |rrs|
      invariant forall j :: 0 <= j < i ==> out[j] == Stamped(rrs[j], ttl)
      invariant forall j :: i <= j < |rrs| ==> out[j] == rrs[j]
    {
      if !out[i].opt {
        out := out[i := out[i].(ttl := ttl)];
      }
    }
  }
}
