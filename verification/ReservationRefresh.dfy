/** Registry writes, refreshes and listener rebuilds overlapping freely. However they
    overtake each other, at rest the allocator's reservations and the problem report are
    both those of the current service list. */
module ReservationRefresh {
  import opened Wrappers
  import opened Reserve
  import opened DhcpRunner

  type Id = nat

  // Where one goroutine stands. A registry write and a reconcile both end in a refresh.
  datatype Task =
    | Saving(v: Settings, role: Role)                                // about to read the list that seeds a listener
    | Seeded(v: Settings, role: Role, svcs: Option<seq<Service>>)    // about to take the lock
    | Due                                                            // a refresh is owed
    | Reading(ticket: Ticket<Id>)
    | Holding(ticket: Ticket<Id>, list: seq<Service>)

  datatype System = System(
    text: Text,
    services: seq<Service>,
    runner: Runner<Id>,
    made: Id,                                   // allocators made so far
    tasks: map<Id, Task>,
    failed: bool,                               // the newest refresh could not read the list
    past: set<seq<Service>>)                    // every list there has been

  datatype Step =
    | Write(task: Id, list: seq<Service>)
    | Save(task: Id, v: Settings, role: Role)
    | Seed(task: Id)
    | SeedFails(task: Id)
    | Lock(task: Id, host: Host)
    | Begin(task: Id)
    | Read(task: Id)
    | ReadFails(task: Id)
    | Publish(task: Id)

  predicate Enabled(s: System, e: Step) {
    match e
    case Write(t, _) => t !in s.tasks
    case Save(t, _, _) => t !in s.tasks
    case Seed(t) => t in s.tasks && s.tasks[t].Saving?
    case SeedFails(t) => t in s.tasks && s.tasks[t].Saving?
    case Lock(t, _) => t in s.tasks && s.tasks[t].Seeded?
    case Begin(t) => t in s.tasks && s.tasks[t].Due?
    case Read(t) => t in s.tasks && s.tasks[t].Reading?
    case ReadFails(t) => t in s.tasks && s.tasks[t].Reading?
    case Publish(t) => t in s.tasks && s.tasks[t].Holding?
  }

  function After(s: System, e: Step): System
    requires Enabled(s, e)
  {
    var t := e.task;
    match e
    case Write(_, list) =>
      s.(services := list, past := s.past + {list}, tasks := s.tasks[t := Due])
    case Save(_, v, role) =>
      s.(tasks := s.tasks[t := if DhcpWanted(v, role) then Saving(v, role) else Seeded(v, role, Some([]))])
    case Seed(_) =>
      s.(tasks := s.tasks[t := Seeded(s.tasks[t].v, s.tasks[t].role, Some(s.services))])
    case SeedFails(_) =>
      s.(tasks := s.tasks[t := Seeded(s.tasks[t].v, s.tasks[t].role, None)])
    case Lock(_, host) =>
      s.(runner := Reconciled(s.runner, s.text, s.tasks[t].v, s.tasks[t].role, s.tasks[t].svcs, host, s.made),
         made := s.made + 1, tasks := s.tasks[t := Due])
    case Begin(_) =>
      var r := Begun(s.runner);
      s.(runner := r, failed := false,
         tasks := match TicketOf(r) case None => s.tasks - {t} case Some(k) => s.tasks[t := Reading(k)])
    case Read(_) =>
      s.(tasks := s.tasks[t := Holding(s.tasks[t].ticket, s.services)])
    case ReadFails(_) =>
      s.(tasks := s.tasks - {t}, failed := s.failed || s.tasks[t].ticket.gen == s.runner.gen)
    case Publish(_) =>
      s.(runner := Published(s.runner, s.text, s.tasks[t].ticket, s.tasks[t].list), tasks := s.tasks - {t})
  }

  ghost predicate Starts(s: System) {
    && s.runner.listener.None? && s.runner.problems == [] && s.tasks == map[]
    && s.made == 0 && s.past == {s.services} && !s.failed
  }

  // The states a run passes through: states[i + 1] comes from states[i] by steps[i].
  ghost predicate Behaviour(states: seq<System>, steps: seq<Step>) {
    && |states| == |steps| + 1 && Starts(states[0])
    && forall i :: 0 <= i < |steps| ==> StepAt(states, steps, i)
  }

  ghost predicate StepAt(states: seq<System>, steps: seq<Step>, i: nat)
    requires |states| == |steps| + 1 && i < |steps|
  {
    Enabled(states[i], steps[i]) && states[i + 1] == After(states[i], steps[i])
  }

  // ----- what every step keeps -----

  predicate InFlight(k: Task) { k.Reading? || k.Holding? }

  ghost predicate AllInFlight(s: System) { forall t :: t in s.tasks ==> InFlight(s.tasks[t]) }

  // Reservations and report are both those of this list.
  predicate Shows(s: System, list: seq<Service>) {
    s.runner.listener.Some? ==>
      && s.runner.listener.value.reserved == Reserved(s.text, s.runner.listener.value.subnet, list)
      && s.runner.problems == Problems(s.text, s.runner.listener.value.subnet, list)
  }

  // A refresh that may still publish is about the listener that is up, and holds the
  // current list if it holds one.
  predicate UpToDate(s: System, k: Task)
    requires InFlight(k)
  {
    && TicketOf(s.runner) == Some(k.ticket)
    && (k.Holding? ==> k.list == s.services)
  }

  ghost predicate NewestIsUpToDate(s: System) {
    forall t :: t in s.tasks && InFlight(s.tasks[t]) && s.tasks[t].ticket.gen == s.runner.gen ==>
      UpToDate(s, s.tasks[t])
  }

  ghost predicate NewestIsDone(s: System) {
    forall t :: t in s.tasks && InFlight(s.tasks[t]) ==> s.tasks[t].ticket.gen != s.runner.gen
  }

  // Once no refresh is owed: what is in flight is up to date or overtaken, and when the
  // newest refresh has ended its list is the one that shows.
  ghost predicate Settles(s: System) {
    AllInFlight(s) ==> NewestIsUpToDate(s) && (NewestIsDone(s) && !s.failed ==> Shows(s, s.services))
  }

  ghost predicate NoTicketAhead(s: System) {
    forall t :: t in s.tasks && InFlight(s.tasks[t]) ==> s.tasks[t].ticket.gen <= s.runner.gen
  }

  lemma BeginKeepsSettled(s: System, e: Step)
    requires NoTicketAhead(s) && Enabled(s, e) && e.Begin?
    ensures NoTicketAhead(After(s, e)) && Settles(After(s, e))
  {
    var t, s2 := e.task, After(s, e);
    assert forall u :: u in s2.tasks && u != t && InFlight(s2.tasks[u]) ==> s2.tasks[u].ticket.gen < s2.runner.gen;
    if s2.runner.listener.Some? { assert t in s2.tasks && s2.tasks[t].ticket.gen == s2.runner.gen; }
  }

  lemma ReadKeepsSettled(s: System, e: Step)
    requires NoTicketAhead(s) && Settles(s) && Enabled(s, e) && e.Read?
    ensures NoTicketAhead(After(s, e)) && Settles(After(s, e))
  {
    var t, s2 := e.task, After(s, e);
    assert s2.tasks[t].ticket == s.tasks[t].ticket;
    assert forall u :: u in s.tasks && u != t ==> u in s2.tasks && s2.tasks[u] == s.tasks[u];
    if AllInFlight(s2) {
      assert AllInFlight(s);
      if NewestIsDone(s2) { assert NewestIsDone(s); }
    }
  }

  lemma EndKeepsSettled(s: System, e: Step)
    requires NoTicketAhead(s) && Settles(s) && Enabled(s, e) && (e.ReadFails? || e.Publish?)
    ensures NoTicketAhead(After(s, e)) && Settles(After(s, e))
  {
    var t, s2 := e.task, After(s, e);
    assert forall u :: u in s.tasks && u != t ==> u in s2.tasks && s2.tasks[u] == s.tasks[u];
    if AllInFlight(s2) {
      assert AllInFlight(s);
      if s.tasks[t].ticket.gen == s.runner.gen {
        assert UpToDate(s, s.tasks[t]);
      } else if NewestIsDone(s2) {
        assert NewestIsDone(s);
      }
    }
  }

  lemma StepKeepsSettled(s: System, e: Step)
    requires NoTicketAhead(s) && Settles(s) && Enabled(s, e)
    ensures NoTicketAhead(After(s, e)) && Settles(After(s, e))
  {
    match e
    case Begin(_) => BeginKeepsSettled(s, e);
    case Read(_) => ReadKeepsSettled(s, e);
    case ReadFails(_) => EndKeepsSettled(s, e);
    case Publish(_) => EndKeepsSettled(s, e);
    case _ => assert !InFlight(After(s, e).tasks[e.task]);
  }

  lemma {:induction false} Settled(states: seq<System>, steps: seq<Step>, i: nat)
    requires Behaviour(states, steps) && i < |states|
    ensures NoTicketAhead(states[i]) && Settles(states[i])
  {
    if i > 0 {
      assert StepAt(states, steps, i - 1);
      Settled(states, steps, i - 1);
      StepKeepsSettled(states[i - 1], steps[i - 1]);
    }
  }

  // When every write, refresh and reconcile has ended and the newest refresh could read
  // the list, reservations and report are both those of the current service list.
  lemma AtRestTheListShows(states: seq<System>, steps: seq<Step>, i: nat)
    requires Behaviour(states, steps) && i < |states|
    requires states[i].tasks == map[] && !states[i].failed
    ensures Shows(states[i], states[i].services)
  {
    Settled(states, steps, i);
  }

  // ----- never unarmed -----

  ghost predicate HeldIsPast(s: System) {
    forall t :: t in s.tasks ==>
      && (s.tasks[t].Holding? ==> s.tasks[t].list in s.past)
      && (s.tasks[t].Seeded? && DhcpWanted(s.tasks[t].v, s.tasks[t].role) && s.tasks[t].svcs.Some? ==>
          s.tasks[t].svcs.value in s.past)
  }

  // No two listeners share an allocator, so a ticket for the one that is up knows its subnet.
  ghost predicate TicketsFit(s: System) {
    && (s.runner.listener.Some? ==> s.runner.listener.value.alloc < s.made)
    && forall t :: t in s.tasks && InFlight(s.tasks[t]) ==> TicketFits(s, s.tasks[t].ticket)
  }

  predicate TicketFits(s: System, k: Ticket<Id>) {
    && k.alloc < s.made
    && (s.runner.listener.Some? && s.runner.listener.value.alloc == k.alloc ==>
        s.runner.listener.value.subnet == k.subnet)
  }

  ghost predicate Armed(s: System) {
    s.runner.listener.Some? ==>
      exists list :: list in s.past
        && s.runner.listener.value.reserved == Reserved(s.text, s.runner.listener.value.subnet, list)
  }

  lemma ListsArePast(s: System, e: Step)
    requires s.services in s.past && HeldIsPast(s) && Enabled(s, e)
    ensures After(s, e).services in After(s, e).past && HeldIsPast(After(s, e)) && s.past <= After(s, e).past
  {
  }

  lemma StepKeepsTicketsFit(s: System, e: Step)
    requires TicketsFit(s) && Enabled(s, e)
    ensures TicketsFit(After(s, e))
  {
    var s2 := After(s, e);
    forall t | t in s2.tasks && InFlight(s2.tasks[t]) ensures TicketFits(s2, s2.tasks[t].ticket) {
      if t != e.task || !e.Begin? {
        assert t in s.tasks && InFlight(s.tasks[t]) && s2.tasks[t].ticket == s.tasks[t].ticket;
      }
    }
  }

  lemma StepKeepsArmed(s: System, e: Step)
    requires HeldIsPast(s) && TicketsFit(s) && Armed(s) && Enabled(s, e) && s.past <= After(s, e).past
    ensures Armed(After(s, e))
  {
    var s2 := After(s, e);
    if e.Lock? && s2.runner.listener != s.runner.listener && s2.runner.listener.Some? {
      assert s.tasks[e.task].svcs.value in s2.past;
    } else if e.Publish? && IsCurrent(s.runner, s.tasks[e.task].ticket) {
      assert TicketFits(s, s.tasks[e.task].ticket);
      assert s.tasks[e.task].list in s2.past;
    } else {
      assert s2.runner.listener.Some? ==> s2.runner.listener == s.runner.listener;
    }
  }

  // At every moment of every run a listener that is up has been armed: it holds the
  // reservations of a service list there has been, resolved against its own subnet.
  lemma {:induction false} AlwaysArmed(states: seq<System>, steps: seq<Step>, i: nat)
    requires Behaviour(states, steps) && i < |states|
    ensures states[i].services in states[i].past && HeldIsPast(states[i]) && TicketsFit(states[i]) && Armed(states[i])
  {
    if i > 0 {
      assert StepAt(states, steps, i - 1);
      AlwaysArmed(states, steps, i - 1);
      ListsArePast(states[i - 1], steps[i - 1]);
      StepKeepsTicketsFit(states[i - 1], steps[i - 1]);
      StepKeepsArmed(states[i - 1], steps[i - 1]);
    }
  }

  // ----- what the status says of the listener -----

  // Nothing between two reconciles changes which listener is up, the settings it was made
  // from, or the reason given.
  predicate SameListener(r: Runner<Id>, t: Runner<Id>) {
    && r.current == t.current && r.lastError == t.lastError && r.listener.Some? == t.listener.Some?
    && (r.listener.None? ==> t.problems == r.problems)
    && (r.listener.Some? ==>
        t.listener.value.alloc == r.listener.value.alloc && t.listener.value.subnet == r.listener.value.subnet)
  }

  lemma OthersLeaveIt(s: System, e: Step)
    requires TicketsFit(s) && Enabled(s, e) && !e.Lock?
    ensures SameListener(s.runner, After(s, e).runner)
  {
  }

  lemma {:induction false} LeftSince(states: seq<System>, steps: seq<Step>, from: nat, to: nat)
    requires Behaviour(states, steps) && from <= to < |states|
    requires forall k :: from <= k < to ==> !steps[k].Lock?
    ensures SameListener(states[from].runner, states[to].runner)
  {
    if from < to {
      LeftSince(states, steps, from, to - 1);
      AlwaysArmed(states, steps, to - 1);
      assert StepAt(states, steps, to - 1);
      OthersLeaveIt(states[to - 1], steps[to - 1]);
    }
  }

  // At every moment the status is that of the last reconcile: it gives no reason exactly
  // when the listener that is up runs the settings that reconcile was asked for, and where
  // those want no DHCP, or on a replica, nothing is up and nothing reported.
  lemma StatusIsHonest(states: seq<System>, steps: seq<Step>, last: nat, i: nat)
    requires Behaviour(states, steps) && last < i < |states| && steps[last].Lock?
    requires forall k :: last < k < i ==> !steps[k].Lock?
    ensures steps[last].task in states[last].tasks && states[last].tasks[steps[last].task].Seeded?
    ensures var asked, r := states[last].tasks[steps[last].task], states[i].runner;
      if DhcpWanted(asked.v, asked.role) then r.lastError.None? <==> RunsAlready(r, asked.v)
      else r.listener.None? && r.problems == []
  {
    assert StepAt(states, steps, last);
    var s, e := states[last], steps[last];
    ReconcileAccounts(s.runner, s.text, s.tasks[e.task].v, s.tasks[e.task].role, s.tasks[e.task].svcs, e.host, s.made);
    LeftSince(states, steps, last + 1, i);
  }

  // A step takes a listener down, or puts another in its place, exactly when it reconciles
  // settings that want none, or others than it runs that a listener could be built for;
  // no refusal and no refresh does.
  lemma ListenerLeavesExactly(s: System, e: Step)
    requires TicketsFit(s) && Enabled(s, e) && s.runner.listener.Some?
    ensures var l := After(s, e).runner.listener;
      (l.None? || l.value.alloc != s.runner.listener.value.alloc) <==>
        e.Lock? && var k := s.tasks[e.task];
          !DhcpWanted(k.v, k.role)
          || (!RunsAlready(s.runner, k.v) && k.svcs.Some? && Build(s.text, k.v, NeedsProbe(s.runner, k.v), e.host).Ok?)
  {
    if !e.Lock? {
      OthersLeaveIt(s, e);
    } else {
      var k := s.tasks[e.task];
      var t := Reconciled(s.runner, s.text, k.v, k.role, k.svcs, e.host, s.made);
      if DhcpWanted(k.v, k.role) && e.host.binds && t.lastError.Some? {
        RefusalKeepsTheListener(s.runner, s.text, k.v, k.role, k.svcs, e.host, s.made);
      }
    }
  }
}
