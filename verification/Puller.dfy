/** The pull loop: one tick asks the pinned primary for its version, and only when that
    differs from the version held pulls, applies and records. */
module Pulling {
  import opened Wrappers
  import opened Tables
  import StoreObject

  const SCHEMA_VERSION := 1

  datatype VersionReply = VersionReply(schema: nat, version: nat, node: string)

  // input is None when the document does not decode.
  datatype SnapshotReply = SnapshotReply(schema: nat, version: nat, node: string, input: Option<Input>)

  datatype Trouble =
    | Unreadable
    | Unreachable
    | WrongNode
    | WrongSchema
    | NoSnapshot
    | NotApplied
    | NotRecorded

  datatype PullConfig = PullConfig(pinned: string, interval: nat, ceiling: nat)

  datatype State = State(
    held: nat,
    syncedAt: Option<int>,
    trouble: Option<Trouble>,
    backoff: nat,
    health: map<string, string>,
    healthKnown: bool,
    connected: bool)

  function Start(c: PullConfig, node: Node, readable: bool): State {
    State(if readable && node.primary == c.pinned then node.held else 0, None,
          if readable then None else Some(Unreadable),
          c.interval, map[], false, false)
  }

  function Slower(c: PullConfig, p: State): nat { if 2 * p.backoff > c.ceiling then c.ceiling else 2 * p.backoff }

  // The primary gave no usable answer: back off, and vouch for no health.
  function Rejected(c: PullConfig, p: State, why: Trouble): State {
    p.(trouble := Some(why), backoff := Slower(c, p), healthKnown := false, connected := false)
  }

  function Failed(p: State, why: Trouble): State { p.(trouble := Some(why)) }

  function Synced(p: State, version: nat, now: int): State {
    p.(held := version, syncedAt := Some(now), trouble := None)
  }

  function WithHealth(p: State, health: Option<map<string, string>>): State {
    match health case None => p.(healthKnown := false) case Some(h) => p.(health := h, healthKnown := true)
  }

  // A tick up to the decision to pull.
  function Ticked(c: PullConfig, p: State, dials: bool, reply: Option<VersionReply>,
                  health: Option<map<string, string>>, now: int): (State, bool) {
    if !p.connected && !dials then (Rejected(c, p, Unreachable), false)
    else if reply.None? then (Rejected(c, p, Unreachable), false)
    else if reply.value.node != c.pinned then (Rejected(c, p, WrongNode), false)
    else
      var r := p.(connected := true, backoff := c.interval);
      if reply.value.schema != SCHEMA_VERSION then (Failed(r.(healthKnown := false), WrongSchema), false)
      else
        var h := WithHealth(r, health);
        if reply.value.version == h.held then (Synced(h, reply.value.version, now), false) else (h, true)
  }

  // Why the reply to a pull is not a document to apply.
  function Unfit(c: PullConfig, reply: Option<SnapshotReply>): Option<Trouble> {
    if reply.None? then Some(NoSnapshot)
    else if reply.value.node != c.pinned then Some(WrongNode)
    else if reply.value.schema != SCHEMA_VERSION then Some(WrongSchema)
    else if reply.value.input.None? then Some(NotApplied)
    else None
  }

  // Only a reply in the right words keeps the connection.
  function Dropped(p: State, why: Trouble): State {
    Failed(p.(connected := p.connected && why != NoSnapshot && why != WrongNode), why)
  }

  // The pulled document written, if it is one and the transaction commits. rebuilt says
  // whether everything serving from the tables could be rebuilt after.
  function Landed(c: PullConfig, p: State, db: Db, reply: Option<SnapshotReply>, commits: bool,
                  rebuilt: bool): (State, Db, bool) {
    if Unfit(c, reply).Some? then (Dropped(p, Unfit(c, reply).value), db, false)
    else
      var done := commits && Perform(db, ApplySnapshot(reply.value.input.value)).Ok?;
      (if done && rebuilt then p else Failed(p, NotApplied),
       if done then After(db, ApplySnapshot(reply.value.input.value)) else db, done && rebuilt)
  }

  // The version recorded under the pin; only then is it held.
  function Recorded(c: PullConfig, p: State, db: Db, version: nat, commits: bool, now: int): (State, Db) {
    if commits then (Synced(p, version, now), After(db, SetReplicaState(c.pinned, version)))
    else (Failed(p, NotRecorded), db)
  }

  function Polled(c: PullConfig, p: State, db: Db, dials: bool, reply: Option<VersionReply>,
                  health: Option<map<string, string>>,
                  document: Option<SnapshotReply>, commits: bool, rebuilt: bool, records: bool, now: int): (State, Db) {
    var (q, pull) := Ticked(c, p, dials, reply, health, now);
    if !pull then (q, db)
    else
      var (r, d, ok) := Landed(c, q, db, document, commits, rebuilt);
      if ok then Recorded(c, r, d, document.value.version, records, now) else (r, d)
  }

  // ----- what holds of every tick -----

  // The version held moves only to one a pull recorded, or is confirmed by the primary.
  lemma TickNeverMovesHeld(c: PullConfig, p: State, dials: bool, reply: Option<VersionReply>,
                           health: Option<map<string, string>>, now: int)
    ensures var (q, pull) := Ticked(c, p, dials, reply, health, now);
      && q.held == p.held
      && (pull ==> reply.Some? && reply.value.node == c.pinned && reply.value.version != p.held && q.connected)
      && (q.trouble.None? && !pull ==> reply.Some? && reply.value.version == p.held)
  {
  }

  // Health is vouched for only by the reply of this very tick.
  lemma HealthIsNeverStale(c: PullConfig, p: State, dials: bool, reply: Option<VersionReply>,
                           health: Option<map<string, string>>, now: int)
    ensures var q := Ticked(c, p, dials, reply, health, now).0;
      q.healthKnown ==>
        health == Some(q.health) && reply.Some? && reply.value.node == c.pinned && (p.connected || dials)
  {
  }

  // A pull that did not end well leaves the version held, so the next tick pulls again.
  lemma FailedPullIsRetried(c: PullConfig, p: State, db: Db, reply: Option<SnapshotReply>, commits: bool, rebuilt: bool)
    ensures var (q, d, ok) := Landed(c, p, db, reply, commits, rebuilt);
      && q.held == p.held
      && (!ok ==> q.trouble.Some? && (d != db ==> !rebuilt))
  {
  }

  // The version held changes only to that of a document from the pinned primary that was
  // applied and whose version was recorded; and the database, apart from that record, only
  // by such a document.
  lemma PollHoldsWhatItApplied(c: PullConfig, p: State, db: Db, dials: bool, reply: Option<VersionReply>,
                               health: Option<map<string, string>>,
                               document: Option<SnapshotReply>, commits: bool, rebuilt: bool, records: bool, now: int)
    ensures var (q, d) := Polled(c, p, db, dials, reply, health, document, commits, rebuilt, records, now);
      && (d != db || q.held != p.held ==>
            reply.Some? && reply.value.version != p.held && document.Some? && document.value.node == c.pinned
              && document.value.input.Some?)
      && (q.held != p.held ==>
            && q.held == document.value.version && q.trouble.None?
            && Perform(db, ApplySnapshot(document.value.input.value)).Ok?
            && d == After(After(db, ApplySnapshot(document.value.input.value)), SetReplicaState(c.pinned, q.held)))
  {
    TickNeverMovesHeld(c, p, dials, reply, health, now);
    var (q, pull) := Ticked(c, p, dials, reply, health, now);
    if pull { FailedPullIsRetried(c, q, db, document, commits, rebuilt); }
  }

  class Puller {
    const c: PullConfig
    const store: StoreObject.Store
    var lastVersion: nat
    var lastSyncAt: Option<int>
    var lastErr: Option<Trouble>
    var backoff: nat
    var health: map<string, string>
    var healthKnown: bool
    var connected: bool

    ghost function View(): State
      reads this
    {
      State(lastVersion, lastSyncAt, lastErr, backoff, health, healthKnown, connected)
    }

    constructor (c: PullConfig, store: StoreObject.Store, readable: bool)
      ensures this.c == c && this.store == store && View() == Start(c, store.db.node, readable)
    {
      this.c, this.store := c, store;
      lastVersion := if readable && store.db.node.primary == c.pinned then store.db.node.held else 0;
      lastSyncAt, lastErr := None, if readable then None else Some(Unreadable);
      backoff, health, healthKnown, connected := c.interval, map[], false, false;
    }

    method BackOff(why: Trouble)
      modifies this
      ensures View() == Rejected(c, old(View()), why)
    {
      connected, healthKnown := false, false;
      lastErr := Some(why);
      backoff := 2 * backoff;
      if backoff > c.ceiling {
        backoff := c.ceiling;
      }
    }

    method Fail(why: Trouble)
      modifies this`lastErr
      ensures View() == Failed(old(View()), why)
    {
      lastErr := Some(why);
    }

    method Sync(version: nat, now: int)
      modifies this
      ensures View() == Synced(old(View()), version, now)
    {
      lastVersion, lastSyncAt, lastErr := version, Some(now), None;
    }

    method PollHealth(reply: Option<map<string, string>>)
      modifies this
      ensures View() == WithHealth(old(View()), reply)
    {
      match reply
      case None =>
        healthKnown := false;
      case Some(h) =>
        health, healthKnown := h, true;
    }

    method Tick(dials: bool, reply: Option<VersionReply>, healthReply: Option<map<string, string>>, now: int)
      returns (pull: bool)
      modifies this
      ensures (View(), pull) == Ticked(c, old(View()), dials, reply, healthReply, now)
    {
      pull := false;
      if (!connected && !dials) || reply.None? {
        BackOff(Unreachable);
        return;
      }
      connected := true;
      if reply.value.node != c.pinned {
        BackOff(WrongNode);
        return;
      }
      backoff := c.interval;
      if reply.value.schema != SCHEMA_VERSION {
        Fail(WrongSchema);
        healthKnown := false;
        return;
      }
      PollHealth(healthReply);
      if reply.value.version == lastVersion {
        Sync(reply.value.version, now);
        return;
      }
      pull := true;
    }

    method Apply(input: Input, commits: bool, rebuilt: bool) returns (ok: bool)
      modifies this`lastErr, store
      ensures ok <==> commits && Perform(old(store.db), ApplySnapshot(input)).Ok? && rebuilt
      ensures View() == if ok then old(View()) else Failed(old(View()), NotApplied)
      ensures store.db == if commits then After(old(store.db), ApplySnapshot(input)) else old(store.db)
    {
      var r := store.ApplySnapshot(input, commits);
      ok := r.None? && rebuilt;
      if !ok {
        Fail(NotApplied);
      }
    }

    // Writes what the primary sent.
    method Land(reply: Option<SnapshotReply>, commits: bool, rebuilt: bool) returns (ok: bool)
      modifies this, store
      ensures (View(), store.db, ok) == Landed(c, old(View()), old(store.db), reply, commits, rebuilt)
    {
      var why := Unfit(c, reply);
      if why.Some? {
        connected := connected && why.value != NoSnapshot && why.value != WrongNode;
        Fail(why.value);
        return false;
      }
      ok := Apply(reply.value.input.value, commits, rebuilt);
    }

    // And then, in a transaction of its own, under which version it was sent.
    method Record(version: nat, commits: bool, now: int)
      modifies this, store
      ensures (View(), store.db) == Recorded(c, old(View()), old(store.db), version, commits, now)
    {
      var r := store.SetReplicaState(c.pinned, version, commits);
      if r.Some? {
        Fail(NotRecorded);
        return;
      }
      Sync(version, now);
    }

    // One tick, with whatever came back for each request it made.
    method Poll(dials: bool, reply: Option<VersionReply>, healthReply: Option<map<string, string>>,
                document: Option<SnapshotReply>,
                commits: bool, rebuilt: bool, records: bool, now: int)
      modifies this, store
      ensures (View(), store.db) ==
        Polled(c, old(View()), old(store.db), dials, reply, healthReply, document, commits, rebuilt, records, now)
    {
      var pull := Tick(dials, reply, healthReply, now);
      if !pull {
        return;
      }
      var ok := Land(document, commits, rebuilt);
      if !ok {
        return;
      }
      Record(document.value.version, records, now);
    }
  }
}
