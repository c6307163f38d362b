/** How two nodes come to hold one version and share two configurations: a policy import
    without a shipped list, pulled, and a restart of the replica that puts the list in. */
module SeedingRuns {
  import opened Wrappers
  import opened Tables
  import opened Seeding
  import opened Replication
  import opened PollRuns

  // ----- runs put end to end -----

  ghost predicate Run(x: World, states: seq<System>, steps: seq<Step>) {
    |states| == |steps| + 1 && forall i :: 0 <= i < |steps| ==> StepAt(x, states, steps, i)
  }

  lemma Chained(x: World, a: seq<System>, ea: seq<Step>, b: seq<System>, eb: seq<Step>)
    returns (states: seq<System>, steps: seq<Step>)
    requires Run(x, a, ea) && Run(x, b, eb) && a[|ea|] == b[0]
    ensures Run(x, states, steps) && steps == ea + eb && states[0] == a[0] && states[|steps|] == b[|eb|]
  {
    states, steps := a + b[1..], ea + eb;
    forall i | 0 <= i < |steps| ensures StepAt(x, states, steps, i) {
      if i < |ea| {
        assert StepAt(x, a, ea, i);
      } else {
        assert StepAt(x, b, eb, i - |ea|);
        assert states[i] == b[i - |ea|] && states[i + 1] == b[i - |ea| + 1];
      }
    }
  }

  lemma OneStepRuns(x: World, s: System, e: Step, t: System)
    requires StepsTo(x, s, e, t)
    ensures Run(x, [s, t], [e])
  {
  }

  // ----- what an undisturbed poll leaves alone -----

  lemma PollStepLeavesPrimary(x: World, s: System, e: Step)
    requires Enabled(x, s, e) && OfPoll(e)
    ensures Then(x, s, e).primary == s.primary
  {
  }

  lemma {:induction false} PollLeavesPrimary(x: World, states: seq<System>, steps: seq<Step>, n: nat)
    requires Polling(x, states, steps) && n <= |steps|
    ensures states[n].primary == states[0].primary
  {
    if n > 0 {
      PollLeavesPrimary(x, states, steps, n - 1);
      assert StepAt(x, states, steps, n - 1) && OfPoll(steps[n - 1]);
      PollStepLeavesPrimary(x, states[n - 1], steps[n - 1]);
    }
  }

  // ----- the run -----

  // An import of a policy with no list in it.
  function BareImport(b: BlacklistSettings): Write { ReplaceBlacklist(map[], b, [], []) }

  lemma ImportDropsLists(db: Db, b: BlacklistSettings)
    ensures var d := After(db, BareImport(b));
      d.lists == map[] && d.services == db.services && d.version > db.version
  {
    var start := BlacklistPut(PolicyWiped(db), b);
    assert ListsImported(start, map[], []) == Ok(start) && RulesPut(start, []) == Ok(start);
  }

  lemma FirstStep(x: World, s: System, b: BlacklistSettings) returns (t: System)
    requires Starts(x, s)
    ensures StepsTo(x, s, PrimaryWrites(BareImport(b), s.ids), t)
    ensures Inv(x, t) && t.phase == Resting && t.primary.lists == map[] && t.puller.held != t.primary.version
  {
    var e := PrimaryWrites(BareImport(b), s.ids);
    ImportDropsLists(s.primary, b);
    t := Then(x, s, e);
    StartKeeps(x, s);
    StepKeeps(x, s, e);
  }

  // A replica that shares the configuration of a primary without the first shipped list
  // is apart from it after a restart.
  lemma LastStep(x: World, s: System) returns (t: System)
    requires Inv(x, s) && s.phase == Resting && Converged(s) && s.primary.lists == map[] && x.manifest != []
    ensures StepsTo(x, s, Restarts(|x.manifest|, true), t) && Apart(t)
  {
    var e := Restarts(|x.manifest|, true);
    t := Then(x, s, e);
    assert ListDefs(s.replica.lists).Keys == ListDefs(s.primary.lists).Keys == {};
    MissingFirst(s.replica, x.manifest);
    assert x.manifest[0].name in t.seeded && !SeedsAreShared(t);
    SeededNamed(s.replica, x.manifest, |x.manifest|);
    RestartKeeps(x, s, e);
    AtTheVersionHeld(x, t);
  }

  lemma MissingFirst(db: Db, manifest: seq<ListDef>)
    requires ListDefs(db.lists).Keys == {} && manifest != []
    ensures manifest[0].name in Missing(db, manifest, |manifest|)
  {
    assert db.lists.Keys == ListDefs(db.lists).Keys;
    assert manifest[0].name !in db.lists;
  }

  // A step, a step, a run and a step.
  lemma FourParts(x: World, s: System, e: Step, t: System, f: Step, middle: seq<System>, es: seq<Step>, g: Step,
                  u: System)
    returns (states: seq<System>, steps: seq<Step>)
    requires Run(x, middle, es) && StepsTo(x, s, e, t) && StepsTo(x, t, f, middle[0]) && StepsTo(x, middle[|es|], g, u)
    ensures Run(x, states, steps) && states[0] == s && states[|steps|] == u && steps == [e] + [f] + es + [g]
  {
    OneStepRuns(x, s, e, t);
    OneStepRuns(x, t, f, middle[0]);
    OneStepRuns(x, middle[|es|], g, u);
    states, steps := Chained(x, [s, t], [e], [t, middle[0]], [f]);
    states, steps := Chained(x, states, steps, middle, es);
    states, steps := Chained(x, states, steps, [middle[|es|], u], [g]);
  }

  lemma PollEndsWithout(x: World, after: seq<System>, poll: seq<Step>)
    requires Polling(x, after, poll) && after[0].primary.lists == map[]
    ensures Inv(x, after[|poll|]) && after[|poll|].primary.lists == map[]
  {
    PollLeavesPrimary(x, after, poll, |poll|);
    PollIsShort(x, after, poll, |poll|);
  }

  // The run, from any start: the primary imports a policy without the shipped lists, the
  // replica pulls it and shares it, and restarts. From then on it holds the primary's
  // version and another configuration, as ApartForGood says, until the primary is written
  // to again.
  lemma SeedingMaySetApart(x: World, s: System, b: BlacklistSettings) returns (states: seq<System>, steps: seq<Step>)
    requires Starts(x, s) && x.manifest != []
    ensures Behaviour(x, states, steps) && states[0] == s && |steps| >= 3
    ensures steps[0] == PrimaryWrites(BareImport(b), s.ids) && steps[|steps| - 1] == Restarts(|x.manifest|, true)
    ensures Apart(states[|steps|])
  {
    var tick := Tick(true, true, None, 0);
    var imported := FirstStep(x, s, b);
    var after, poll := OnePoll(x, imported, tick);
    PollEndsWithout(x, after, poll);
    var last := LastStep(x, after[|poll|]);
    states, steps := FourParts(x, s, PrimaryWrites(BareImport(b), s.ids), imported, tick, after, poll,
                               Restarts(|x.manifest|, true), last);
  }
}
