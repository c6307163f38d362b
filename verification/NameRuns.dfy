/** Which names can meet after a restart. Names are kept apart in memory; what comes back
    is the table. */
module NameRuns {
  import opened Wrappers
  import opened Net
  import opened Allocation
  import opened AllocationFacts
  import opened LeaseStore
  import opened DhcpServer
  import opened LeaseRuns

  // ----- exactly when -----

  // Two clients' persisted acknowledgements still stand, unexpired, under one name.
  ghost predicate Meet(log: seq<Write>, now: int, i: int, j: int, m: string, n: string, r: Row, q: Row) {
    && Stands(log, i, m, r) && Stands(log, j, n, q) && m != n
    && r.expiresAt > now && q.expiresAt > now && r.hostname != "" && r.hostname == q.hostname
  }

  ghost predicate NamesMeet(log: seq<Write>, now: int) {
    exists i, j, m, n, r, q :: Meet(log, now, i, j, m, n, r, q)
  }

  lemma MeetingInMemory(s: Sys, t: Sys, m: string, n: string)
    requires s.rows == After(s.log) && t.rows == Prune(s.rows, s.clock) && Restores(t.mem, t.rows)
    requires Held(t.mem, m, s.clock) && Held(t.mem, n, s.clock) && m != n
    requires t.mem.byMAC[m].hostname != "" && t.mem.byMAC[m].hostname == t.mem.byMAC[n].hostname
    ensures NamesMeet(s.log, s.clock)
  {
    TableIsTheLedger(s.log, m, s.rows[m]);
    TableIsTheLedger(s.log, n, s.rows[n]);
    var i :| Stands(s.log, i, m, s.rows[m]);
    var j :| Stands(s.log, j, n, s.rows[n]);
    assert Meet(s.log, s.clock, i, j, m, n, s.rows[m], s.rows[n]);
  }

  lemma MeetingComesBack(s: Sys, t: Sys)
    requires s.rows == After(s.log) && t.rows == Prune(s.rows, s.clock) && Restores(t.mem, t.rows)
      && NamesMeet(s.log, s.clock)
    ensures !UniqueNames(t.mem, s.clock)
  {
    var a, b, m, n, r, q :| Meet(s.log, s.clock, a, b, m, n, r, q);
    TableIsTheLedger(s.log, m, r);
    TableIsTheLedger(s.log, n, q);
    assert Held(t.mem, m, s.clock) && Held(t.mem, n, s.clock);
  }

  // Names are unique right after a listener starts if and only if no two persisted and
  // still standing acknowledgements share one.
  lemma NamesUniqueAfterRestartExactly(states: seq<Sys>, events: seq<Event>, i: nat)
    requires Behaviour(states, events) && i < |events| && events[i].Start?
    ensures UniqueNames(states[i + 1].mem, states[i].clock) <==> !NamesMeet(states[i].log, states[i].clock)
  {
    var s, t := states[i], states[i + 1];
    InvHolds(states, events, i);
    assert StepAt(states, events, i);
    if NamesMeet(s.log, s.clock) {
      MeetingComesBack(s, t);
    } else if !UniqueNames(t.mem, s.clock) {
      var m, n :| Held(t.mem, m, s.clock) && Held(t.mem, n, s.clock) && m != n && t.mem.byMAC[m].hostname != ""
        && t.mem.byMAC[m].hostname == t.mem.byMAC[n].hostname;
      MeetingInMemory(s, t, m, n);
    }
  }

  // ----- what keeps them apart -----

  // The table as it will be once every write under way has landed.
  function Landed(rows: Rows, pending: seq<Pending>): Rows {
    if pending == [] then rows else Apply(Landed(rows, pending[..|pending| - 1]), WriteOf(pending[|pending| - 1]))
  }

  // Every live row is what memory says of that client.
  ghost predicate RowInStep(s: Sys, m: string, r: Row) {
    m in s.mem.byMAC && s.mem.byMAC[m].ip == r.ip && s.mem.byMAC[m].hostname == r.hostname
      && s.mem.byMAC[m].expires >= r.expiresAt
  }

  ghost predicate RowsInStep(s: Sys, rows: Rows) {
    forall m :: m in rows && rows[m].expiresAt > s.clock ==> RowInStep(s, m, rows[m]) && !Protected(s.cfg, rows[m].ip)
  }

  ghost predicate InStep(s: Sys) { s.up && RowsInStep(s, Landed(s.rows, s.pending)) }

  // No write is lost or overtaken, no REQUEST is refused that has changed memory, and no
  // probe lets go of a lease acknowledged meanwhile.
  ghost predicate Tidy(s: Sys, e: Event) {
    match e
    case Packet(m) =>
      m.kind == Request ==>
        Acking(s.cfg, s.mem, m, s.clock).granted.Some? || Acking(s.cfg, s.mem, m, s.clock).state == s.mem
    case Dropping(i) =>
      i < |s.probes| ==>
        var p, rows := s.probes[i], Landed(s.rows, s.pending);
          !(p.mac in rows && rows[p.mac].expiresAt > s.clock && rows[p.mac].ip == p.ip)
    case Persist(i, commits) => i == 0 && commits
    case Crash => false
    case Start(_, _, _) => false
    case _ => true
  }

  lemma {:induction false} FirstLands(rows: Rows, pending: seq<Pending>)
    requires pending != []
    ensures Landed(rows, pending) == Landed(Apply(rows, WriteOf(pending[0])), pending[1..])
  {
    var n := |pending| - 1;
    if n > 0 {
      FirstLands(rows, pending[..n]);
      assert pending[..n][1..] == pending[1..][..n - 1];
    }
  }

  lemma LastLands(rows: Rows, pending: seq<Pending>, p: Pending)
    ensures Landed(rows, pending + [p]) == Apply(Landed(rows, pending), WriteOf(p))
  {
    assert (pending + [p])[..|pending|] == pending;
  }

  lemma HoldStaysInStep(s: Sys, t: Sys, rows: Rows, mac: string, requested: Addr)
    requires MemoryInv(s.mem) && RowsInStep(s, rows)
    requires t ==
      s.(mem := Grant(s.cfg, s.mem, mac, "", requested, OFFER_HOLD, true, s.clock).state, probes := t.probes)
    ensures RowsInStep(t, rows)
  {
    forall m | m in rows && rows[m].expiresAt > s.clock ensures RowInStep(t, m, rows[m]) {
      OfferWeakensExactly(s.cfg, s.mem, mac, requested, OFFER_HOLD, s.clock, m);
    }
  }

  lemma AckStaysInStep(s: Sys, t: Sys, rows: Rows, m: Message)
    requires MemoryInv(s.mem) && RowsInStep(s, rows) && Acking(s.cfg, s.mem, m, s.clock).granted.Some?
    requires t.mem == Acking(s.cfg, s.mem, m, s.clock).state && t.cfg == s.cfg && t.clock == s.clock
    ensures RowsInStep(t, Put(rows, m.mac, RowOf(Acking(s.cfg, s.mem, m, s.clock).granted.value, s.clock)))
  {
    var l := Acking(s.cfg, s.mem, m, s.clock).granted.value;
    GrantIsSafe(s.cfg, s.mem, m.mac, m.hostname, Unmap(m.requested), s.cfg.leaseTime, false, s.clock);
    AllocateCommits(s.cfg, s.mem, m.mac, m.hostname, Unmap(m.requested), s.cfg.leaseTime, s.clock);
    forall n | n in rows && n != m.mac && rows[n].ip != l.ip && rows[n].expiresAt > s.clock
      ensures RowInStep(t, n, rows[n]) {
      assert RowInStep(s, n, rows[n]);
    }
  }

  lemma PacketStaysInStep(s: Sys, e: Event, t: Sys)
    requires e.Packet? && InStep(s) && Inv(s) && Steps(s, e, t) && Tidy(s, e)
    ensures InStep(t)
  {
    var m, rows := e.m, Landed(s.rows, s.pending);
    if m.kind == Discover {
      HoldStaysInStep(s, t, rows, m.mac, Unmap(m.requested));
      assert s.pending + [] == s.pending;
    } else if m.kind == Request && Acking(s.cfg, s.mem, m, s.clock).granted.Some? {
      AckStaysInStep(s, t, rows, m);
      LastLands(s.rows, s.pending, PutRow(m.mac, RowOf(Acking(s.cfg, s.mem, m, s.clock).granted.value, s.clock)));
    } else if ToPersist(s, m) == [DeleteRow(m.mac)] {
      LastLands(s.rows, s.pending, DeleteRow(m.mac));
      RemovalStaysInStep(s, t, rows, m);
    } else {
      assert s.pending + [] == s.pending;
      assert t.mem == s.mem;
    }
  }

  lemma RemovalStaysInStep(s: Sys, t: Sys, rows: Rows, m: Message)
    requires (m.kind == ReleaseMsg && Releases(s.mem, m, s.cfg.host)) || (m.kind == DeclineMsg && Declines(s.mem, m))
    requires MemoryInv(s.mem) && RowsInStep(s, rows) && t.mem == Remember(s, m) && t.cfg == s.cfg && t.clock == s.clock
    ensures RowsInStep(t, Delete(rows, m.mac))
  {
    forall n | n in rows && n != m.mac && rows[n].expiresAt > s.clock ensures RowInStep(t, n, rows[n]) {
      assert RowInStep(s, n, rows[n]);
    }
  }

  lemma StepStaysInStep(s: Sys, e: Event, t: Sys)
    requires InStep(s) && Inv(s) && Steps(s, e, t) && Tidy(s, e)
    ensures InStep(t)
  {
    var rows := Landed(s.rows, s.pending);
    if e.Packet? {
      PacketStaysInStep(s, e, t);
    } else if e.OfferingAgain? {
      HoldStaysInStep(s, t, rows, s.probes[e.probe].mac, NoAddr);
    } else if e.Persist? {
      FirstLands(s.rows, s.pending);
      assert t.pending == s.pending[1..];
    } else {
      forall m | m in rows && rows[m].expiresAt > t.clock ensures RowInStep(t, m, rows[m]) {
        assert RowInStep(s, m, rows[m]);
      }
    }
  }

  lemma NamesStepUnique(s: Sys, e: Event, t: Sys)
    requires s.up && Inv(s) && UniqueNames(s.mem, s.clock) && Steps(s, e, t) && !e.Crash? && !e.Start?
    ensures UniqueNames(t.mem, t.clock)
  {
    if e.Packet? {
      PacketKeepsNames(s, e.m);
    } else if e.OfferingAgain? {
      GrantKeepsNames(s.cfg, s.mem, s.probes[e.probe].mac, "", NoAddr, OFFER_HOLD, true, s.clock);
    }
  }

  lemma PacketKeepsNames(s: Sys, m: Message)
    requires Inv(s) && s.up && UniqueNames(s.mem, s.clock)
    ensures UniqueNames(Remember(s, m), s.clock)
  {
    if m.kind == Discover {
      GrantKeepsNames(s.cfg, s.mem, m.mac, "", Unmap(m.requested), OFFER_HOLD, true, s.clock);
    } else if m.kind == Request {
      GrantKeepsNames(s.cfg, s.mem, m.mac, m.hostname, Unmap(m.requested), s.cfg.leaseTime, false, s.clock);
    }
  }

  ghost predicate InOrder(s: Sys) { InStep(s) && UniqueNames(s.mem, s.clock) }

  lemma StepStaysInOrder(s: Sys, e: Event, t: Sys)
    requires InOrder(s) && Inv(s) && Steps(s, e, t) && Tidy(s, e)
    ensures InOrder(t)
  {
    StepStaysInStep(s, e, t);
    NamesStepUnique(s, e, t);
  }

  ghost predicate TidyBetween(states: seq<Sys>, events: seq<Event>, from: nat, to: nat)
    requires |states| == |events| + 1 && from <= to < |states|
  {
    from == to || (TidyBetween(states, events, from, to - 1) && Tidy(states[to - 1], events[to - 1]))
  }

  lemma InOrderAt(states: seq<Sys>, events: seq<Event>, n: nat)
    requires Behaviour(states, events) && n < |events| && InOrder(states[n]) && Tidy(states[n], events[n])
    ensures InOrder(states[n + 1])
  {
    InvHolds(states, events, n);
    assert StepAt(states, events, n);
    StepStaysInOrder(states[n], events[n], states[n + 1]);
  }

  lemma {:induction false} TidyRunStaysInStep(states: seq<Sys>, events: seq<Event>, from: nat, to: nat)
    requires Behaviour(states, events) && from <= to < |states|
    requires InOrder(states[from]) && TidyBetween(states, events, from, to)
    ensures InOrder(states[to])
  {
    if from < to {
      TidyRunStaysInStep(states, events, from, to - 1);
      InOrderAt(states, events, to - 1);
    }
  }

  // A run in which every write lands in order, no REQUEST is refused after it changed
  // memory and no probe lets go of a lease ends, whenever it is cut off with no write
  // under way, in a restart that brings no name back twice.
  lemma NamesSurviveATidyRun(states: seq<Sys>, events: seq<Event>, from: nat, to: nat, t: State, now: int)
    requires Behaviour(states, events) && from <= to < |states|
    requires InOrder(states[from]) && TidyBetween(states, events, from, to)
    requires states[to].pending == [] && now >= states[to].clock && Restores(t, Prune(states[to].rows, now))
    ensures UniqueNames(t, now)
  {
    TidyRunStaysInStep(states, events, from, to);
    var s := states[to];
    forall m | Held(t, m, now)
      ensures RowInStep(s, m, s.rows[m]) && s.rows[m].hostname == t.byMAC[m].hostname && Held(s.mem, m, s.clock) {
      assert m in Prune(s.rows, now);
    }
  }

  // ----- what is not promised -----

  const SMALL := Config(Prefix(V4(0), 30), V4(1), V4(2), V4(8), V4(9), 300)

  function Req(mac: string, hostname: string, ip: U32): Message {
    Message(Request, mac, 0, hostname, V4(ip), NoAddr, NoAddr)
  }

  function Two(a: Lease, b: Option<Lease>): State {
    if b.None? then EMPTY.(byMAC := map[a.mac := a], byIP := map[a.ip := a.mac])
    else EMPTY.(byMAC := map[a.mac := a, b.value.mac := b.value], byIP := map[a.ip := a.mac, b.value.ip := b.value.mac])
  }

  const A_FIRST := Lease("a", V4(1), "h", 300)
  const A_RENAMED := Lease("a", V4(1), "x", 301)
  const B_TAKES := Lease("b", V4(2), "h", 302)

  lemma FirstAck()
    ensures Acking(SMALL, EMPTY, Req("a", "h", 1), 0) == Verdict(Two(A_FIRST, None), Some(A_FIRST))
  {
    assert Pow2(2) == 4;
    assert Free(SMALL, EMPTY, V4(1), "a", 0);
  }

  lemma RefusedRename()
    ensures Acking(SMALL, Two(A_FIRST, None), Req("a", "x", 2), 1) == Verdict(Two(A_RENAMED, None), None)
  {
    assert Pow2(2) == 4;
    assert Renewable(SMALL, Two(A_FIRST, None), "a");
  }

  lemma SecondAck()
    ensures Acking(SMALL, Two(A_RENAMED, None), Req("b", "h", 2), 2) ==
      Verdict(Two(A_RENAMED, Some(B_TAKES)), Some(B_TAKES))
  {
    assert Pow2(2) == 4;
    assert Free(SMALL, Two(A_RENAMED, None), V4(2), "b", 2);
  }

  const CLASHING: Rows := Put(Put(map[], "a", RowOf(A_FIRST, 0)), "b", RowOf(B_TAKES, 2))

  lemma ClashIsRestored(t: State)
    requires Restores(t, Prune(CLASHING, 3))
    ensures !UniqueNames(t, 3)
  {
    assert "a" in CLASHING && "b" in CLASHING;
    assert Held(t, "a", 3) && Held(t, "b", 3);
  }

  // A refused REQUEST has still renamed the client in memory but not in the table,
  // so after another client takes the old name the table holds it twice, and a
  // restart brings both back.
  lemma NamesMayClashAfterRestart()
    ensures var first := Acking(SMALL, EMPTY, Req("a", "h", 1), 0);
      var refused := Acking(SMALL, first.state, Req("a", "x", 2), 1);
      var second := Acking(SMALL, refused.state, Req("b", "h", 2), 2);
      && first.granted == Some(A_FIRST) && refused.granted == None && second.granted == Some(B_TAKES)
      && refused.state.byMAC["a"] == A_RENAMED
      && forall t :: Restores(t, Prune(CLASHING, 3)) ==> !UniqueNames(t, 3)
  {
    FirstAck();
    RefusedRename();
    SecondAck();
    forall t | Restores(t, Prune(CLASHING, 3)) ensures !UniqueNames(t, 3) { ClashIsRestored(t); }
  }
}
