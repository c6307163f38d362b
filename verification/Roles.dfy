/** What a node is: decided at boot from its file and a recorded promotion, flipped live
    by a promotion, and undone by joining a primary again. */
module Roles {
  import opened Wrappers
  import opened Tables
  import StoreObject
  import StoreFacts
  import SnapshotFacts

  datatype Role = Primary | Replica | Standalone

  // The two keys of the config file; at most one is set.
  datatype ReplicationConfig = ReplicationConfig(listen: string, primary: string)

  function RoleFrom(cfg: ReplicationConfig): Role {
    if cfg.listen != "" then Primary else if cfg.primary != "" then Replica else Standalone
  }

  function RoleAtBoot(cfg: ReplicationConfig, promoted: bool): Role {
    if promoted && RoleFrom(cfg) == Replica then Primary else RoleFrom(cfg)
  }

  // A promotion is recorded by the second it happened; 0 reads as none.
  predicate Promoted(node: Node) { node.promotedAt.Some? && node.promotedAt.value != 0 }

  // The pull loop of one process. It starts with the process or not at all.
  datatype Loop = NoLoop | Running(pin: string) | Ended

  function LoopAtBoot(role: Role, node: Node): Loop {
    if role == Replica && node.primary != "" then Running(node.primary) else NoLoop
  }

  class RoleHolder {
    var role: Role
    var loop: Loop

    constructor (cfg: ReplicationConfig, node: Node)
      ensures role == RoleAtBoot(cfg, Promoted(node)) && loop == LoopAtBoot(role, node)
    {
      var r := RoleFrom(cfg);
      if Promoted(node) && r == Replica {
        r := Primary;
      }
      role := r;
      loop := if r == Replica && node.primary != "" then Running(node.primary) else NoLoop;
    }

    method StopPull()
      modifies this`loop
      ensures loop == Stopped(old(loop))
    {
      if loop.Running? {
        loop := Ended;
      }
    }

    method Set(r: Role)
      modifies this`role
      ensures role == r
    {
      role := r;
    }
  }

  function Stopped(loop: Loop): Loop { if loop.Running? then Ended else loop }

  // Promotion from the replica's side: the record first, then the loop, then the pin,
  // and only then the role. Whatever fails, what came before it stays done.
  method Promote(store: StoreObject.Store, holder: RoleHolder, at: int, records: bool, clears: bool)
    returns (r: Result<bool, Error>)
    modifies store, holder
    ensures old(holder.role) != Replica ==>
      r == Ok(false) && store.db == old(store.db) && holder.role == old(holder.role)
    ensures old(holder.role) == Replica && !records ==> r == Err(NotCommitted) && store.db == old(store.db)
    ensures old(holder.role) == Replica && !records ==> holder.role == Replica && holder.loop == old(holder.loop)
    ensures old(holder.role) == Replica && records ==>
      && store.db.node == (if clears then Node("", 0, Some(at)) else old(store.db).node.(promotedAt := Some(at)))
      && holder.loop == Stopped(old(holder.loop))
      && (if clears then r == Ok(true) && holder.role == Primary else r == Err(NotCommitted) && holder.role == Replica)
    ensures ConfigOf(store.db) == ConfigOf(old(store.db))
  {
    if holder.role != Replica {
      return Ok(false);
    }
    var e := store.RecordPromotion(at, records);
    if e.Some? {
      return Err(e.value);
    }
    holder.StopPull();
    e := store.SetReplicaState("", 0, clears);
    if e.Some? {
      return Err(e.value);
    }
    holder.Set(Primary);
    return Ok(true);
  }

  // ----- any run of one node -----

  // How far one call of Promote has come.
  datatype Stage = Guarded | Recorded | PullStopped | Unpinned

  datatype Process = Process(role: Role, loop: Loop, promotions: map<nat, Stage>)

  datatype System = System(db: Db, up: Option<Process>)

  datatype Step =
    | Boot(cfg: ReplicationConfig)
    | Crash
    | PullApplies(input: Input, commits: bool)
    | PullRecords(version: nat, commits: bool)
    | PromoteBegins(call: nat)
    | PromoteRecords(call: nat, at: int, commits: bool)
    | PromoteStops(call: nat)
    | PromoteUnpins(call: nat, commits: bool)
    | PromoteSets(call: nat)
    | Join(primary: string, commits: bool)
    | OtherWrite(write: Write)

  predicate At(s: System, call: nat, stage: Stage) {
    s.up.Some? && call in s.up.value.promotions && s.up.value.promotions[call] == stage
  }

  predicate Pulls(s: System) { s.up.Some? && s.up.value.loop.Running? }

  // Every other write leaves the promotion and the pin alone.
  predicate Ordinary(w: Write) { !w.SetReplicaState? && !w.RecordPromotion? && !w.FollowPrimary? && !w.ApplySnapshot? }

  predicate Enabled(s: System, e: Step) {
    match e
    case Boot(_) => s.up.None?
    case Crash => s.up.Some?
    case PullApplies(_, _) => Pulls(s)
    case PullRecords(_, _) => Pulls(s)
    case PromoteBegins(c) => s.up.Some? && s.up.value.role == Replica && c !in s.up.value.promotions
    case PromoteRecords(c, at, _) => At(s, c, Guarded) && at > 0
    case PromoteStops(c) => At(s, c, Recorded)
    case PromoteUnpins(c, _) => At(s, c, PullStopped)
    case PromoteSets(c) => At(s, c, Unpinned)
    case Join(p, _) => s.up.Some? && p != ""
    case OtherWrite(w) => s.up.Some? && Ordinary(w)
  }

  function Try(db: Db, w: Write, commits: bool): Db { if commits then After(db, w) else db }

  // The call moves on where its write landed, and ends with an error where it did not.
  function MovedOn(p: Process, call: nat, stage: Stage, landed: bool): Process {
    p.(promotions := if landed then p.promotions[call := stage] else p.promotions - {call})
  }

  function Then(s: System, e: Step): System
    requires Enabled(s, e)
  {
    match e
    case Boot(cfg) =>
      var role := RoleAtBoot(cfg, Promoted(s.db.node));
      s.(up := Some(Process(role, LoopAtBoot(role, s.db.node), map[])))
    case Crash => s.(up := None)
    case PullApplies(input, commits) => s.(db := Try(s.db, ApplySnapshot(input), commits))
    case PullRecords(v, commits) => s.(db := Try(s.db, SetReplicaState(s.up.value.loop.pin, v), commits))
    case PromoteBegins(c) => s.(up := Some(MovedOn(s.up.value, c, Guarded, true)))
    case PromoteRecords(c, at, commits) =>
      System(Try(s.db, RecordPromotion(at), commits), Some(MovedOn(s.up.value, c, Recorded, commits)))
    case PromoteStops(c) =>
      var p := MovedOn(s.up.value, c, PullStopped, true);
      s.(up := Some(p.(loop := Stopped(p.loop))))
    case PromoteUnpins(c, commits) =>
      System(Try(s.db, SetReplicaState("", 0), commits), Some(MovedOn(s.up.value, c, Unpinned, commits)))
    case PromoteSets(c) =>
      s.(up := Some(MovedOn(s.up.value, c, Unpinned, false).(role := Primary)))
    case Join(p, commits) => s.(db := Try(s.db, FollowPrimary(p, 0), commits))
    case OtherWrite(w) => s.(db := After(s.db, w))
  }

  ghost predicate StepAt(states: seq<System>, steps: seq<Step>, i: nat)
    requires |states| == |steps| + 1 && i < |steps|
  {
    Enabled(states[i], steps[i]) && states[i + 1] == Then(states[i], steps[i])
  }

  ghost predicate Behaviour(states: seq<System>, steps: seq<Step>) {
    && |states| == |steps| + 1 && states[0].up.None?
    && forall i :: 0 <= i < |steps| ==> StepAt(states, steps, i)
  }

  predicate Joins(e: Step) { e.Join? && e.commits }

  // ----- what every step keeps -----

  // A call past the stop, and a role other than replica, mean the loop is over.
  ghost predicate PullInv(s: System) {
    s.up.Some? ==>
      && (s.up.value.role != Replica ==> !s.up.value.loop.Running?)
      && (forall c :: c in s.up.value.promotions && s.up.value.promotions[c] in {PullStopped, Unpinned} ==>
          !s.up.value.loop.Running?)
  }

  lemma StepKeepsPullInv(s: System, e: Step)
    requires PullInv(s) && Enabled(s, e)
    ensures PullInv(Then(s, e))
  {
  }

  lemma {:induction false} PullInvHolds(states: seq<System>, steps: seq<Step>, i: nat)
    requires Behaviour(states, steps) && i < |states|
    ensures PullInv(states[i])
  {
    if i > 0 {
      assert StepAt(states, steps, i - 1);
      PullInvHolds(states, steps, i - 1);
      StepKeepsPullInv(states[i - 1], steps[i - 1]);
    }
  }

  // A snapshot is applied, and its version recorded, only while the live role is replica.
  lemma OnlyReplicasPull(states: seq<System>, steps: seq<Step>, i: nat)
    requires Behaviour(states, steps) && i < |steps| && (steps[i].PullApplies? || steps[i].PullRecords?)
    ensures states[i].up.Some? && states[i].up.value.role == Replica
  {
    assert StepAt(states, steps, i);
    PullInvHolds(states, steps, i);
  }

  lemma SnapshotKeepsNode(db: Db, input: Input, commits: bool)
    ensures Try(db, ApplySnapshot(input), commits).node == db.node
  {
    hide SnapshotApplied;
    if SnapshotApplied(db, input).Ok? { SnapshotFacts.ApplyKeepsLocalColumns(db, input); }
  }

  lemma OrdinaryKeepsNode(db: Db, w: Write)
    requires Ordinary(w)
    ensures After(db, w).node == db.node
  {
    if w.ReplaceAll? {
      if Perform(db, w).Ok? { SnapshotFacts.RegistryGives(db, w.views, w.services, w.records); }
    } else if w.PutService? {
      ServicePutKeepsNode(db, w.handle, w.service);
    } else if w.ReplaceBlacklist? {
      if Perform(db, w).Ok? { StoreFacts.PolicyFrame(db, w.kept, w.blacklist, w.lists, w.rules); }
    }
  }

  lemma ServicePutKeepsNode(db: Db, handle: Option<string>, svc: Service)
    ensures ServicePut(db, handle, svc).Ok? ==> ServicePut(db, handle, svc).value.node == db.node
  {
  }

  // Only joining a primary ends a promotion.
  lemma PromotionStays(s: System, e: Step)
    requires Enabled(s, e) && Promoted(s.db.node) && !Joins(e)
    ensures Promoted(Then(s, e).db.node)
  {
    if e.PullApplies? {
      SnapshotKeepsNode(s.db, e.input, e.commits);
    } else if e.OtherWrite? {
      OrdinaryKeepsNode(s.db, e.write);
    }
  }

  // Recorded, and nothing pulling any more.
  predicate Free(s: System) { Promoted(s.db.node) && !Pulls(s) }

  lemma {:induction false} StaysPromoted(states: seq<System>, steps: seq<Step>, from: nat, to: nat)
    requires Behaviour(states, steps) && from <= to < |states| && Promoted(states[from].db.node)
    requires forall i :: from <= i < to ==> !Joins(steps[i])
    ensures Promoted(states[to].db.node)
    ensures Free(states[from]) ==> Free(states[to])
  {
    if from < to {
      StaysPromoted(states, steps, from, to - 1);
      assert StepAt(states, steps, to - 1);
      PromotionStays(states[to - 1], steps[to - 1]);
    }
  }

  // Once a promotion is recorded, every boot until the node joins a primary again comes
  // up writable, and as a primary wherever the file names one or is one; a crash between
  // any two steps of the promotion makes no difference.
  lemma EveryRebootIsPrimary(states: seq<System>, steps: seq<Step>, from: nat, boot: nat)
    requires Behaviour(states, steps) && from < boot < |steps|
    requires steps[from].PromoteRecords? && steps[from].commits
    requires forall i :: from < i < boot ==> !Joins(steps[i])
    requires steps[boot].Boot?
    ensures var up := states[boot + 1].up;
      && up.Some? && up.value.role != Replica && !up.value.loop.Running?
      && (steps[boot].cfg.primary != "" ==> up.value.role == Primary)
  {
    assert StepAt(states, steps, from);
    StaysPromoted(states, steps, from + 1, boot);
    assert StepAt(states, steps, boot);
  }

  // The promotion recorded at step r has not been ended by a join before step n.
  predicate RecordStands(steps: seq<Step>, r: nat, n: nat)
    requires r < n <= |steps|
  {
    steps[r].PromoteRecords? && steps[r].commits && forall i :: r < i < n ==> !Joins(steps[i])
  }

  predicate SomeRecordStands(steps: seq<Step>, n: nat)
    requires n <= |steps|
  {
    exists r: nat :: r < n && RecordStands(steps, r, n)
  }

  // A promotion from before the run, and no join since.
  predicate EarlierStands(steps: seq<Step>, start: Node, n: nat)
    requires n <= |steps|
  {
    Promoted(start) && forall i :: 0 <= i < n ==> !Joins(steps[i])
  }

  lemma OneMoreStep(steps: seq<Step>, start: Node, n: nat)
    requires n < |steps|
    ensures SomeRecordStands(steps, n + 1) <==>
      (steps[n].PromoteRecords? && steps[n].commits) || (!Joins(steps[n]) && SomeRecordStands(steps, n))
    ensures EarlierStands(steps, start, n + 1) <==> !Joins(steps[n]) && EarlierStands(steps, start, n)
  {
    if steps[n].PromoteRecords? && steps[n].commits {
      assert RecordStands(steps, n, n + 1);
    } else if !Joins(steps[n]) && SomeRecordStands(steps, n) {
      var r: nat :| r < n && RecordStands(steps, r, n);
      assert RecordStands(steps, r, n + 1);
    } else if SomeRecordStands(steps, n + 1) {
      var r: nat :| r < n + 1 && RecordStands(steps, r, n + 1);
      assert r < n && RecordStands(steps, r, n);
    }
  }

  // What one step makes of the promotion.
  lemma StepPromotes(s: System, e: Step)
    requires Enabled(s, e)
    ensures Promoted(Then(s, e).db.node) <==>
      (e.PromoteRecords? && e.commits) || (!Joins(e) && Promoted(s.db.node))
  {
    if e.PullApplies? {
      SnapshotKeepsNode(s.db, e.input, e.commits);
    } else if e.OtherWrite? {
      OrdinaryKeepsNode(s.db, e.write);
    } else {
      NodeStepPromotes(s, e);
    }
  }

  lemma NodeStepPromotes(s: System, e: Step)
    requires Enabled(s, e) && !e.PullApplies? && !e.OtherWrite?
    ensures Promoted(Then(s, e).db.node) <==>
      (e.PromoteRecords? && e.commits) || (!Joins(e) && Promoted(s.db.node))
  {
  }

  // The database says promoted exactly while a committed record stands un-joined.
  lemma {:induction false} PromotedExactly(states: seq<System>, steps: seq<Step>, n: nat)
    requires Behaviour(states, steps) && n < |states|
    ensures Promoted(states[n].db.node) <==>
      EarlierStands(steps, states[0].db.node, n) || SomeRecordStands(steps, n)
  {
    if n > 0 {
      PromotedExactly(states, steps, n - 1);
      assert StepAt(states, steps, n - 1);
      StepPromotes(states[n - 1], steps[n - 1]);
      OneMoreStep(steps, states[0].db.node, n - 1);
    }
  }

  // A boot comes up as a replica exactly when its file names a primary, and is none, and
  // no committed promotion stands un-joined at that moment, whatever the process before
  // it was running as.
  lemma BootsAsReplicaExactly(states: seq<System>, steps: seq<Step>, boot: nat)
    requires Behaviour(states, steps) && boot < |steps| && steps[boot].Boot?
    ensures var up := states[boot + 1].up;
      up.Some? && (up.value.role == Replica <==>
        && steps[boot].cfg.listen == "" && steps[boot].cfg.primary != ""
        && !EarlierStands(steps, states[0].db.node, boot) && !SomeRecordStands(steps, boot))
  {
    PromotedExactly(states, steps, boot);
    assert StepAt(states, steps, boot);
  }

  // A file that names a listener makes a primary and one that names neither a standalone
  // node; one that names a primary makes a replica, or a primary while a promotion stands.
  // Only a replica with a pin starts a loop, and that loop follows the pin.
  lemma BootOutcome(states: seq<System>, steps: seq<Step>, boot: nat)
    requires Behaviour(states, steps) && boot < |steps| && steps[boot].Boot?
    ensures var cfg, before, after := steps[boot].cfg, states[boot].db, states[boot + 1];
      var promoted := EarlierStands(steps, states[0].db.node, boot) || SomeRecordStands(steps, boot);
      && after.db == before && after.up.Some? && after.up.value.promotions == map[]
      && after.up.value.role == (
           if cfg.listen != "" then Primary
           else if cfg.primary == "" then Standalone
           else if promoted then Primary else Replica)
      && after.up.value.loop == (
           if cfg.listen == "" && cfg.primary != "" && !promoted && before.node.primary != ""
           then Running(before.node.primary) else NoLoop)
  {
    PromotedExactly(states, steps, boot);
    assert StepAt(states, steps, boot);
  }

  // Once it is recorded and the loop is over, live or by a reboot, no snapshot is applied
  // until the node joins a primary again.
  lemma NoSnapshotAfterPromotion(states: seq<System>, steps: seq<Step>, from: nat, i: nat)
    requires Behaviour(states, steps) && from <= i < |steps|
    requires Promoted(states[from].db.node) && (states[from].up.Some? ==> states[from].up.value.role != Replica)
    requires forall j :: from <= j < i ==> !Joins(steps[j])
    ensures !steps[i].PullApplies? && !steps[i].PullRecords?
  {
    PullInvHolds(states, steps, from);
    StaysPromoted(states, steps, from, i);
    assert StepAt(states, steps, i);
  }

  // After a join alone nothing pulls either: the loop of the new primary starts with the
  // next boot.
  lemma {:induction false} JoinWaitsForABoot(states: seq<System>, steps: seq<Step>, from: nat, to: nat)
    requires Behaviour(states, steps) && from <= to < |states| && !Pulls(states[from])
    requires forall i :: from <= i < to ==> !steps[i].Boot?
    ensures !Pulls(states[to])
  {
    if from < to {
      JoinWaitsForABoot(states, steps, from, to - 1);
      assert StepAt(states, steps, to - 1);
    }
  }

  // A join pins the new primary at version 0 and ends the promotion, or changes nothing;
  // pinned, the next boot of a node whose file names a primary follows exactly that one.
  lemma JoinIsWhole(db: Db, primary: string, commits: bool, cfg: ReplicationConfig)
    requires primary != "" && cfg.listen == "" && cfg.primary != ""
    ensures var d := Try(db, FollowPrimary(primary, 0), commits);
      && (d == db || d == db.(node := Node(primary, 0, None)))
      && (commits ==> Then(System(d, None), Boot(cfg)).up == Some(Process(Replica, Running(primary), map[])))
  {
  }

  function WithNode(db: Db, node: Node): Db { db.(node := node) }

  lemma NodeWrites(db: Db, primary: string, held: nat, at: int)
    ensures Try(db, RecordPromotion(at), true) == WithNode(db, db.node.(promotedAt := Some(at)))
    ensures Try(db, SetReplicaState(primary, held), true) == WithNode(db, db.node.(primary := primary, held := held))
    ensures Try(db, FollowPrimary(primary, held), true) == WithNode(db, Node(primary, held, None))
  {
  }

  // A live replica without a loop whose one promotion has come this far.
  function Calling(db: Db, stage: Stage): System { System(db, Some(Process(Replica, NoLoop, map[0 := stage]))) }

  lemma CallWrites(db: Db, at: int, primary: string)
    requires at > 0 && primary != ""
    ensures var s := Calling(db, Guarded);
      Enabled(s, PromoteRecords(0, at, true))
        && Then(s, PromoteRecords(0, at, true)) == Calling(WithNode(db, db.node.(promotedAt := Some(at))), Recorded)
    ensures var s := Calling(db, Recorded);
      Enabled(s, Join(primary, true))
        && Then(s, Join(primary, true)) == Calling(WithNode(db, Node(primary, 0, None)), Recorded)
    ensures var s := Calling(db, PullStopped);
      Enabled(s, PromoteUnpins(0, true))
        && Then(s, PromoteUnpins(0, true)) == Calling(WithNode(db, db.node.(primary := "", held := 0)), Unpinned)
  {
    NodeWrites(db, primary, 0, at);
    NodeWrites(db, "", 0, at);
    assert map[0 := Guarded][0 := Recorded] == map[0 := Recorded];
    assert map[0 := PullStopped][0 := Unpinned] == map[0 := Unpinned];
  }

  lemma CallSteps(db: Db)
    ensures var s := System(db, Some(Process(Replica, NoLoop, map[])));
      Enabled(s, PromoteBegins(0)) && Then(s, PromoteBegins(0)) == Calling(db, Guarded)
    ensures var s := Calling(db, Recorded);
      Enabled(s, PromoteStops(0)) && Then(s, PromoteStops(0)) == Calling(db, PullStopped)
    ensures var s := Calling(db, Unpinned);
      Enabled(s, PromoteSets(0)) && Then(s, PromoteSets(0)) == System(db, Some(Process(Primary, NoLoop, map[])))
  {
    assert map[0 := Recorded][0 := PullStopped] == map[0 := PullStopped];
    assert map[0 := Unpinned] - {0} == map[];
  }

  // From a live replica: a promotion records itself, a join lands, the promotion goes on.
  lemma JoinOvertakes(db: Db, at: int, primary: string)
    requires at > 0 && primary != ""
    ensures Leads(System(db, Some(Process(Replica, NoLoop, map[]))),
                  [PromoteBegins(0), PromoteRecords(0, at, true), Join(primary, true), PromoteStops(0),
                   PromoteUnpins(0, true), PromoteSets(0)],
                  System(WithNode(db, Node("", 0, None)), Some(Process(Primary, NoLoop, map[]))))
  {
    var promoted := WithNode(db, db.node.(promotedAt := Some(at)));
    var joined := WithNode(db, Node(primary, 0, None));
    var last := WithNode(db, Node("", 0, None));
    var t := System(last, Some(Process(Primary, NoLoop, map[])));
    CallSteps(db);
    CallWrites(db, at, primary);
    CallWrites(promoted, at, primary);
    CallSteps(joined);
    CallWrites(joined, at, primary);
    CallSteps(last);
    assert Leads(t, [], t);
    OneStep(Calling(last, Unpinned), PromoteSets(0), [], t);
    OneStep(Calling(joined, PullStopped), PromoteUnpins(0, true), [PromoteSets(0)], t);
    OneStep(Calling(joined, Recorded), PromoteStops(0), [PromoteUnpins(0, true), PromoteSets(0)], t);
    OneStep(Calling(promoted, Recorded), Join(primary, true), [PromoteStops(0), PromoteUnpins(0, true), PromoteSets(0)],
            t);
    OneStep(Calling(db, Guarded), PromoteRecords(0, at, true),
            [Join(primary, true), PromoteStops(0), PromoteUnpins(0, true), PromoteSets(0)], t);
    OneStep(System(db, Some(Process(Replica, NoLoop, map[]))), PromoteBegins(0),
            [PromoteRecords(0, at, true), Join(primary, true), PromoteStops(0), PromoteUnpins(0, true), PromoteSets(0)],
              t);
  }

  lemma OneStep(s: System, e: Step, rest: seq<Step>, t: System)
    requires Enabled(s, e) && Leads(Then(s, e), rest, t)
    ensures Leads(s, [e] + rest, t)
  {
    assert ([e] + rest)[1..] == rest;
  }

  ghost predicate Leads(s: System, steps: seq<Step>, t: System)
    decreases |steps|
  {
    if steps == [] then s == t else Enabled(s, steps[0]) && Leads(Then(s, steps[0]), steps[1..], t)
  }

  // The promise is tied to the record, not to the live role: a join that lands between
  // the two leaves a node that serves as a primary and reboots as a replica.
  lemma LivePrimaryMayRebootAsReplica(cfg: ReplicationConfig, db: Db) returns (t: System)
    requires cfg.listen == "" && cfg.primary != ""
    ensures Leads(System(db, Some(Process(Replica, NoLoop, map[]))),
                  [PromoteBegins(0), PromoteRecords(0, 1, true), Join("b", true), PromoteStops(0),
                   PromoteUnpins(0, true), PromoteSets(0)], t)
    ensures t.up.Some? && t.up.value.role == Primary
    ensures Then(Then(t, Crash), Boot(cfg)).up == Some(Process(Replica, NoLoop, map[]))
  {
    JoinOvertakes(db, 1, "b");
    t := System(WithNode(db, Node("", 0, None)), Some(Process(Primary, NoLoop, map[])));
  }
}
