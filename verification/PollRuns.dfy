/** A poll that nothing disturbs: it can always go on, every step brings it nearer its
    end, and at its end both nodes share one configuration. */
module PollRuns {
  import opened Wrappers
  import opened Tables
  import opened SnapshotReads
  import SnapshotFacts
  import Pulling
  import opened Replication

  // ----- every table can be listed -----

  lemma {:induction false} Listed<T>(s: set<T>) returns (q: seq<T>)
    ensures Distinct(q) && forall t :: t in q <==> t in s
    decreases s
  {
    q := [];
    if s != {} {
      var t :| t in s;
      q := Listed(s - {t});
      q := [t] + q;
    }
  }

  lemma {:induction false} DistinctCount<T>(q: seq<T>, s: set<T>)
    requires Distinct(q) && forall t :: t in q <==> t in s
    ensures |q| == |s|
  {
    if q != [] {
      var n := |q| - 1;
      assert q == q[..n] + [q[n]];
      DistinctCount(q[..n], s - {q[n]});
    }
  }

  lemma {:induction false} ViewsNamed(names: seq<string>, cfg: Config) returns (vs: seq<View>)
    ensures |vs| == |names| && forall i :: 0 <= i < |vs| ==> vs[i].name == names[i] && ViewRead(vs[i], cfg)
  {
    vs := [];
    if names != [] {
      var n := |names| - 1;
      vs := ViewsNamed(names[..n], cfg);
      var subnets := Listed(OwnedBy(cfg.subnets, names[n]));
      vs := vs + [View(names[n], subnets)];
    }
  }

  lemma ViewsListed(cfg: Config) returns (vs: seq<View>)
    ensures ReadsViews(vs, cfg)
  {
    var names := Listed(cfg.views);
    vs := ViewsNamed(names, cfg);
    forall n | n in cfg.views ensures n in SnapshotFacts.ViewNames(vs) {
      var i :| 0 <= i < |names| && names[i] == n;
      assert vs[i] in vs;
    }
  }

  lemma ListsListed(cfg: Config) returns (ls: seq<ListDef>)
    requires forall n :: n in cfg.lists ==> cfg.lists[n].name == n
    ensures ReadsLists(ls, cfg)
  {
    var names := Listed(cfg.lists.Keys);
    ls := seq(|names|, i requires 0 <= i < |names| => assert names[i] in cfg.lists; cfg.lists[names[i]]);
    forall i | 0 <= i < |ls| ensures ls[i].name == names[i] { assert names[i] in cfg.lists; }
    forall n | n in cfg.lists ensures n in NamesOf(ls) {
      var i :| 0 <= i < |names| && names[i] == n;
      assert ls[i] in ls;
    }
  }

  lemma RulesListed(cfg: Config) returns (rs: seq<Rule>)
    ensures ReadsRules(rs, cfg)
  {
    var names := Listed(cfg.rules.Keys);
    rs :=
      seq(|names|, i requires 0 <= i < |names| => assert names[i] in cfg.rules; Rule(cfg.rules[names[i]], names[i]));
    forall d | d in cfg.rules ensures d in Domains(rs) {
      var i :| 0 <= i < |names| && names[i] == d;
      assert rs[i] in rs;
    }
  }

  // ----- it can always go on -----

  lemma NextRead(x: World, s: System) returns (e: Step)
    requires Inv(x, s) && UpToDate(s) && s.phase.Reading? && !Complete(s.phase.progress)
    ensures EnabledRead(ConfigOf(s.primary), s.ids, s.phase.progress, e)
  {
    var p, cfg := s.phase.progress, ConfigOf(s.primary);
    if p.views.None? {
      var vs := ViewsListed(cfg);
      e := ReadViews(vs);
    } else if p.ids.None? {
      var list := Listed(s.ids.Keys);
      assert (set i | i in list) == s.ids.Keys;
      e := ReadIDs(list);
    } else if Midway(p) {
      e := NextOfService(s, p);
    } else if p.records.None? {
      e := ReadRecords(RecordsOf(s.primary.records));
    } else if p.settings.None? {
      e := ReadSettingsRow;
    } else if p.blacklist.None? {
      e := ReadBlacklist;
    } else {
      var ls := ListsListed(cfg);
      e := ReadLists(ls);
    }
  }

  lemma NextOfService(s: System, p: Progress) returns (e: Step)
    requires ReadSoFar(p, ConfigOf(s.primary), s.ids) && Numbers(s.ids, s.primary.services.Keys) && Midway(p)
    ensures EnabledRead(ConfigOf(s.primary), s.ids, p, e)
  {
    assert Next(p) in set i | i in p.ids.value;
    if p.row.None? {
      e := ReadRow;
    } else if p.addresses.None? {
      e := ReadAddresses;
    } else {
      var aliases := Listed(OwnedBy(s.primary.aliases, s.ids[Next(p)]));
      e := ReadAliases(aliases);
    }
  }

  predicate OfPoll(e: Step) { Smooth(e) && !e.Tick? }

  lemma SomeStepGoesOn(x: World, s: System) returns (e: Step)
    requires Inv(x, s) && UpToDate(s) && s.phase != Resting
    ensures OfPoll(e) && Enabled(x, s, e)
  {
    match s.phase
    case Wanting => e := ReadVersion;
    case Reading(p) =>
      if Complete(p) {
        var rs := RulesListed(ConfigOf(s.primary));
        e := ReadRules(rs);
      } else {
        e := NextRead(x, s);
      }
    case Delivered(_, _) => e := Lands(true, true);
    case Applied(_) => e := Records(true, 0);
  }

  // ----- and comes to its end -----

  function Bit(b: bool): nat { if b then 1 else 0 }

  // Queries still to be made: three for each service, one for everything else.
  function ServiceReads(p: Progress, n: nat): nat {
    if p.ids.None? then 1 + 3 * n
    else if Midway(p) then 3 * (|p.ids.value| - |p.services|) - Bit(p.row.Some?) - Bit(p.addresses.Some?)
    else 0
  }

  function Queries(p: Progress, n: nat): nat {
    Bit(p.views.None?) + ServiceReads(p, n) + Bit(p.records.None?) + Bit(p.settings.None?) + Bit(p.blacklist.None?)
      + Bit(p.lists.None?)
  }

  function Left(s: System): nat {
    match s.phase
    case Resting => 0
    case Applied(_) => 1
    case Delivered(_, _) => 2
    case Reading(p) => 3 + Queries(p, |s.ids|)
    case Wanting => 10 + 3 * |s.ids|
  }

  lemma ReadFalls(db: Db, ids: map<nat, string>, p: Progress, e: Step)
    requires EnabledRead(ConfigOf(db), ids, p, e) && ServicesSoFar(p, ConfigOf(db), ids)
    ensures Queries(AfterRead(db, ids, p, e), |ids|) < Queries(p, |ids|)
  {
    if e.ReadIDs? || e.ReadRow? || e.ReadAddresses? || e.ReadAliases? {
      ServiceReadFalls(db, ids, p, e);
    } else {
      assert ServiceReads(AfterRead(db, ids, p, e), |ids|) == ServiceReads(p, |ids|);
    }
  }

  lemma ServiceReadFalls(db: Db, ids: map<nat, string>, p: Progress, e: Step)
    requires EnabledRead(ConfigOf(db), ids, p, e) && ServicesSoFar(p, ConfigOf(db), ids)
    requires e.ReadIDs? || e.ReadRow? || e.ReadAddresses? || e.ReadAliases?
    ensures ServiceReads(AfterRead(db, ids, p, e), |ids|) < ServiceReads(p, |ids|)
  {
    if e.ReadIDs? {
      forall i ensures i in e.list <==> i in ids.Keys { assert i in e.list <==> i in set k | k in e.list; }
      DistinctCount(e.list, ids.Keys);
      assert |ids.Keys| == |ids|;
    } else if e.ReadAliases? {
      assert |AfterRead(db, ids, p, e).services| == |p.services| + 1;
    }
  }

  lemma StepFalls(x: World, s: System, e: Step)
    requires Inv(x, s) && UpToDate(s) && Enabled(x, s, e) && OfPoll(e)
    ensures Left(Then(x, s, e)) < Left(s)
  {
    if s.phase.Reading? && !e.ReadRules? { ReadFalls(s.primary, s.ids, s.phase.progress, e); }
  }

  lemma PollGoesOn(x: World, s: System, e: Step, t: System)
    requires Inv(x, s) && UpToDate(s) && StepsTo(x, s, e, t) && OfPoll(e)
    ensures Inv(x, t) && UpToDate(t) && Left(t) < Left(s)
  {
    StepKeeps(x, s, e);
    SmoothStep(x, s, e);
    StepFalls(x, s, e);
  }

  // A run of one poll, from somewhere in its middle.
  ghost predicate Polling(x: World, states: seq<System>, steps: seq<Step>) {
    && |states| == |steps| + 1 && Inv(x, states[0]) && UpToDate(states[0])
    && (forall i :: 0 <= i < |steps| ==> StepAt(x, states, steps, i) && OfPoll(steps[i]))
  }

  // However it goes on undisturbed, it makes no more steps than were left.
  lemma {:induction false} PollIsShort(x: World, states: seq<System>, steps: seq<Step>, n: nat)
    requires Polling(x, states, steps) && n <= |steps|
    ensures Inv(x, states[n]) && UpToDate(states[n]) && n + Left(states[n]) <= Left(states[0])
  {
    if n > 0 {
      PollIsShort(x, states, steps, n - 1);
      assert StepAt(x, states, steps, n - 1) && OfPoll(steps[n - 1]);
      PollGoesOn(x, states[n - 1], steps[n - 1], states[n]);
    }
  }

  // Undisturbed since its start, a poll is over within the steps that were left, or some
  // step of it can be made; and where it is over the two nodes have converged.
  lemma SmoothPollEnds(x: World, states: seq<System>, steps: seq<Step>) returns (e: Step)
    requires Polling(x, states, steps)
    ensures |steps| <= Left(states[0])
    ensures var s := states[|steps|];
      if s.phase == Resting then Converged(s) else OfPoll(e) && Enabled(x, s, e) && |steps| < Left(states[0])
  {
    PollIsShort(x, states, steps, |steps|);
    e := ReadVersion;
    if states[|steps|].phase != Resting { e := SomeStepGoesOn(x, states[|steps|]); }
  }

  // So from any point of an undisturbed poll there is a way to its end.
  lemma {:induction false} SmoothPollCanFinish(x: World, s: System) returns (states: seq<System>, steps: seq<Step>)
    requires Inv(x, s) && UpToDate(s)
    ensures Polling(x, states, steps) && states[0] == s
    ensures states[|steps|].phase == Resting && Converged(states[|steps|])
    decreases Left(s)
  {
    states, steps := [s], [];
    if s.phase != Resting {
      var e := SomeStepGoesOn(x, s);
      var t := Then(x, s, e);
      PollGoesOn(x, s, e, t);
      states, steps := SmoothPollCanFinish(x, t);
      OneStepMore(x, s, e, states, steps);
      states, steps := [s] + states, [e] + steps;
    }
  }

  lemma OneStepMore(x: World, s: System, e: Step, states: seq<System>, steps: seq<Step>)
    requires Polling(x, states, steps) && Inv(x, s) && UpToDate(s) && OfPoll(e) && Enabled(x, s, e)
      && states[0] == Then(x, s, e)
    ensures Polling(x, [s] + states, [e] + steps)
  {
    forall i | 0 <= i < |steps| + 1 ensures StepAt(x, [s] + states, [e] + steps, i) && OfPoll(([e] + steps)[i]) {
      if i > 0 { assert StepAt(x, states, steps, i - 1); }
    }
  }

  // From a state a behaviour can be at rest in, one undisturbed poll brings the two nodes
  // together, whatever the replica held, if and only if it meets another version than the
  // one held or the primary has every list the replica has put in.
  lemma EveryRestCanConverge(x: World, states: seq<System>, steps: seq<Step>, i: nat,
                             health: Option<map<string, string>>, now: int)
    returns (after: seq<System>, poll: seq<Step>)
    requires Behaviour(x, states, steps) && i < |states| && states[i].phase == Resting
    ensures Enabled(x, states[i], Tick(true, true, health, now))
    ensures WillMeet(states[i]) ==>
      && Polling(x, after, poll) && after[0] == Then(x, states[i], Tick(true, true, health, now))
      && after[|poll|].phase == Resting && Converged(after[|poll|])
    ensures !WillMeet(states[i]) ==> Apart(Then(x, states[i], Tick(true, true, health, now)))
  {
    InvHolds(x, states, steps, i);
    after, poll := OnePoll(x, states[i], Tick(true, true, health, now));
  }

  lemma OnePoll(x: World, s: System, tick: Step) returns (after: seq<System>, poll: seq<Step>)
    requires Inv(x, s) && s.phase == Resting && tick.Tick? && Smooth(tick)
    ensures Enabled(x, s, tick)
    ensures WillMeet(s) ==>
      && Polling(x, after, poll) && after[0] == Then(x, s, tick)
      && after[|poll|].phase == Resting && Converged(after[|poll|])
    ensures !WillMeet(s) ==> Apart(Then(x, s, tick))
  {
    after, poll := [s], [];
    SmoothTick(x, s, tick);
    if WillMeet(s) {
      StepKeeps(x, s, tick);
      after, poll := SmoothPollCanFinish(x, Then(x, s, tick));
    }
  }

  // ----- health along a run -----

  // The tick at step j was answered with this health, and no tick has followed it.
  predicate HealthFrom(steps: seq<Step>, j: nat, i: nat, health: map<string, string>)
    requires j < i <= |steps|
  {
    steps[j].Tick? && steps[j].answers && steps[j].health == Some(health) && forall k :: j < k < i ==> !steps[k].Tick?
  }

  lemma OthersKeepHealth(x: World, s: System, e: Step)
    requires Enabled(x, s, e) && !e.Tick?
    ensures var p := Then(x, s, e).puller; p.healthKnown ==> s.puller.healthKnown && p.health == s.puller.health
  {
  }

  // Health is vouched for, at any moment, only if the newest tick brought it.
  lemma {:induction false} HealthIsTheLastTicks(x: World, states: seq<System>, steps: seq<Step>, i: nat)
    requires Behaviour(x, states, steps) && i < |states| && states[i].puller.healthKnown
    ensures exists j: nat :: j < i && HealthFrom(steps, j, i, states[i].puller.health)
  {
    if i > 0 {
      var s, e := states[i - 1], steps[i - 1];
      assert StepAt(x, states, steps, i - 1);
      if e.Tick? {
        TickBringsHealth(x, s, e);
        assert HealthFrom(steps, i - 1, i, states[i].puller.health);
      } else {
        OthersKeepHealth(x, s, e);
        HealthIsTheLastTicks(x, states, steps, i - 1);
        var j: nat :| j < i - 1 && HealthFrom(steps, j, i - 1, states[i - 1].puller.health);
        assert HealthFrom(steps, j, i, states[i].puller.health);
      }
    }
  }

  lemma TickBringsHealth(x: World, s: System, e: Step)
    requires Enabled(x, s, e) && e.Tick? && Then(x, s, e).puller.healthKnown
    ensures e.answers && e.health == Some(Then(x, s, e).puller.health)
  {
    var reply := if e.answers then Some(Pulling.VersionReply(Pulling.SCHEMA_VERSION, s.primary.version, x.c.pinned))
      else None;
    Pulling.HealthIsNeverStale(x.c, s.puller, e.dials, reply, e.health, e.now);
  }
}
