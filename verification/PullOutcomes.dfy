/** What one tick of the pull loop comes to, reply by reply. */
module PullOutcomes {
  import opened Wrappers
  import opened Tables
  import opened Pulling

  // What comes back for the requests of one tick, and which of its writes go through.
  datatype Replies = Replies(
    dials: bool,
    version: Option<VersionReply>,
    health: Option<map<string, string>>,
    document: Option<SnapshotReply>,
    commits: bool,
    rebuilt: bool,
    records: bool,
    now: int)

  function Outcome(c: PullConfig, p: State, db: Db, r: Replies): (State, Db) {
    Polled(c, p, db, r.dials, r.version, r.health, r.document, r.commits, r.rebuilt, r.records, r.now)
  }

  // The pinned primary answered, over a connection there was or could be made.
  predicate Answered(c: PullConfig, p: State, r: Replies) {
    (p.connected || r.dials) && r.version.Some? && r.version.value.node == c.pinned
  }

  // And in the words of this version.
  predicate Understood(c: PullConfig, p: State, r: Replies) { Answered(c, p, r) && r.version.value.schema == 1 }

  // Health is what came back with this tick, if anything did.
  predicate HealthIs(p: State, q: State, health: Option<map<string, string>>) {
    (q.healthKnown <==> health.Some?) && q.health == (if health.Some? then health.value else p.health)
  }

  // No usable answer: the connection is given up, health is not known, the next tick waits
  // twice as long up to the ceiling, and nothing is written or held anew.
  lemma NoAnswerOutcome(c: PullConfig, p: State, db: Db, r: Replies)
    requires !Answered(c, p, r)
    ensures var (q, d) := Outcome(c, p, db, r);
      && d == db && q.held == p.held && q.syncedAt == p.syncedAt && q.health == p.health
      && !q.connected && !q.healthKnown
      && q.backoff <= c.ceiling && (q.backoff == 2 * p.backoff || (q.backoff == c.ceiling && 2 * p.backoff > c.ceiling))
      && q.trouble == Some(if (p.connected || r.dials) && r.version.Some? then WrongNode else Unreachable)
  {
  }

  // An answer in other words keeps the connection and the pace, and nothing else.
  lemma OtherSchemaOutcome(c: PullConfig, p: State, db: Db, r: Replies)
    requires Answered(c, p, r) && !Understood(c, p, r)
    ensures Outcome(c, p, db, r) ==
      (State(p.held, p.syncedAt, Some(WrongSchema), c.interval, p.health, false, true), db)
  {
  }

  // The version held already: nothing is asked for, and the tick counts as a sync.
  lemma UpToDateOutcome(c: PullConfig, p: State, db: Db, r: Replies)
    requires Understood(c, p, r) && r.version.value.version == p.held
    ensures var (q, d) := Outcome(c, p, db, r);
      && d == db && q.held == p.held && q.syncedAt == Some(r.now) && q.trouble == None
      && q.backoff == c.interval && q.connected && HealthIs(p, q, r.health)
  {
  }

  // A document this node can use: from the same node, in the same words, and decoded.
  predicate Usable(c: PullConfig, r: Replies) {
    && r.document.Some? && r.document.value.node == c.pinned && r.document.value.schema == 1
    && r.document.value.input.Some?
  }

  lemma TickPulls(c: PullConfig, p: State, r: Replies)
    requires Understood(c, p, r) && r.version.value.version != p.held
    ensures var (q, pull) := Ticked(c, p, r.dials, r.version, r.health, r.now);
      pull && HealthIs(p, q, r.health)
      && q == p.(connected := true, backoff := c.interval, health := q.health, healthKnown := q.healthKnown)
  {
  }

  function WhyUnusable(c: PullConfig, document: Option<SnapshotReply>): Trouble {
    if document.None? then NoSnapshot
    else if document.value.node != c.pinned then WrongNode
    else if document.value.schema != 1 then WrongSchema else NotApplied
  }

  lemma UnusableIsUnfit(c: PullConfig, r: Replies)
    requires !Usable(c, r)
    ensures Unfit(c, r.document) == Some(WhyUnusable(c, r.document))
  {
  }

  lemma UnfitIsDropped(c: PullConfig, q: State, db: Db, r: Replies)
    requires Unfit(c, r.document).Some?
    ensures Landed(c, q, db, r.document, r.commits, r.rebuilt) == (Dropped(q, Unfit(c, r.document).value), db, false)
  {
  }

  // Another version: its document is pulled. One that cannot be used is not written, and the
  // connection is kept only where it came from the pinned node.
  lemma UnusableOutcome(c: PullConfig, p: State, db: Db, r: Replies)
    requires Understood(c, p, r) && r.version.value.version != p.held && !Usable(c, r)
    ensures var (q, d) := Outcome(c, p, db, r);
      && d == db && q.held == p.held && q.syncedAt == p.syncedAt && q.backoff == c.interval
      && HealthIs(p, q, r.health)
      && (q.connected <==> r.document.Some? && r.document.value.node == c.pinned)
      && q.trouble == Some(WhyUnusable(c, r.document))
  {
    TickPulls(c, p, r);
    UnusableIsUnfit(c, r);
    var (q, _) := Ticked(c, p, r.dials, r.version, r.health, r.now);
    UnfitIsDropped(c, q, db, r);
    hide Ticked, Landed, Unfit, Usable;
  }

  // One that can is applied, the servers are rebuilt, and its own version is recorded: only
  // after all three is it held. What came before a failure stays done.
  lemma UsableOutcome(c: PullConfig, p: State, db: Db, r: Replies)
    requires Understood(c, p, r) && r.version.value.version != p.held && Usable(c, r)
    ensures var (q, d) := Outcome(c, p, db, r);
      var write := ApplySnapshot(r.document.value.input.value);
      var applied := r.commits && Perform(db, write).Ok?;
      var held := applied && r.rebuilt && r.records;
      var version := r.document.value.version;
      && q.held == (if held then version else p.held) && q.syncedAt == (if held then Some(r.now) else p.syncedAt)
      && q.trouble == (if held then None else Some(if applied && r.rebuilt then NotRecorded else NotApplied))
      && q.backoff == c.interval && q.connected && HealthIs(p, q, r.health)
      && (!applied ==> d == db)
      && (applied ==> d == (if held then After(After(db, write), SetReplicaState(c.pinned, version))
                            else After(db, write)))
  {
    TickPulls(c, p, r);
    hide Perform, After, Ticked;
  }

  // A loop starts from the version recorded under its own pin, and from none under another.
  lemma StartOutcome(c: PullConfig, node: Node, readable: bool)
    ensures var p := Start(c, node, readable);
      && p.held == (if readable && node.primary == c.pinned then node.held else 0)
      && p.backoff == c.interval && !p.connected && !p.healthKnown && p.syncedAt == None
      && (p.trouble == None <==> readable)
  {
  }
}
