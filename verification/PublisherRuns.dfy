// Any number of publishers, one effect at a time: what each effect does to the outbox, the queue
// and the publisher, and what holds over every sequence of effects.
module PublisherRuns {
  import opened Basics
  import opened Leases
  import opened OutboxStore

  const NODE_SYNC_REQUESTED := "node-sync.requested"

  // Where a publisher is between two effects.
  datatype Stage =
    | Resting
    | Delivering(event: ClaimedEvent)
    | Settling(event: ClaimedEvent)
    | Failing(event: ClaimedEvent, code: string)

  // What does not change: the stored events, those in scope, the publishers' lease owners, and
  // which payloads satisfy the event schema.
  datatype Setting = Setting(
    bodies: map<Id, EventBody>,
    scope: set<Id>,
    terms: Terms,
    names: map<Id, string>,
    parses: string -> bool)
  {
    predicate Deliverable(event: ClaimedEvent) {
      event.topic == NODE_SYNC_REQUESTED && parses(event.payload)
    }

    predicate Stores(event: ClaimedEvent) {
      && event.id in bodies
      && event.topic == bodies[event.id].topic
      && event.payload == bodies[event.id].payload
    }
  }

  // The queue keeps one job per identifier; adding it again changes nothing.
  datatype Scene = Scene(rows: Table, issued: set<Id>, queue: map<Id, string>, stages: map<Id, Stage>)

  // One effect of publisher w. A statement may be lost before it is executed, or its answer after;
  // an addition to the queue may fail, or succeed and yet report a failure.
  datatype Effect =
    | Claims(w: Id, now: int, event: Option<ClaimedEvent>)
    | Reclaims(now: int)
    | Delivers(w: Id, added: bool, reported: bool)
    | Publishes(w: Id, now: int, executed: bool, answered: bool)
    | Retries(w: Id, now: int, executed: bool, answered: bool)
    | Crashes(w: Id)

  ghost predicate Possible(setting: Setting, effect: Effect, s: Scene) {
    match effect
    case Claims(w, now, event) =>
      && w in s.stages && s.stages[w].Resting? && w in setting.names && s.rows.Keys == setting.bodies.Keys
      && (match event
          case None => NoneClaimableIn(s.rows, setting.scope, setting.terms, now)
          case Some(e) =>
            && OldestIn(s.rows, setting.bodies, setting.scope, setting.terms, e.id, now)
            && e.leaseToken !in s.issued && setting.Stores(e))
    case Reclaims(_) => true
    case Delivers(w, _, _) => w in s.stages && s.stages[w].Delivering?
    case Publishes(w, _, _, _) => w in s.stages && s.stages[w].Settling? && w in setting.names
    case Retries(w, _, _, _) => w in s.stages && s.stages[w].Failing? && w in setting.names
    case Crashes(w) => w in s.stages
  }

  predicate HeldBy(rows: Table, event: ClaimedEvent, owner: string, now: int) {
    event.id in rows && Holds(rows[event.id], owner, event.leaseToken, now)
  }

  function Enqueued(setting: Setting, queue: map<Id, string>, event: ClaimedEvent, added: bool): map<Id, string> {
    if setting.Deliverable(event) && added && event.id !in queue then queue[event.id := event.payload] else queue
  }

  function DeliveredStage(setting: Setting, queue: map<Id, string>, event: ClaimedEvent, reported: bool): Stage {
    if event.topic != NODE_SYNC_REQUESTED then Failing(event, "OUTBOX_UNSUPPORTED_TOPIC")
    else if !setting.parses(event.payload) then Failing(event, "OUTBOX_INVALID_PAYLOAD")
    else if reported && event.id in queue then Settling(event)
    else Failing(event, "OUTBOX_PUBLISH_FAILED")
  }

  ghost function After(setting: Setting, effect: Effect, s: Scene): Scene
    requires Possible(setting, effect, s)
  {
    match effect
    case Claims(w, now, None) => s
    case Claims(w, now, Some(e)) =>
      assert ClaimableIn(s.rows, setting.scope, setting.terms, e.id, now);
      s.(rows := s.rows[e.id := Claimed(s.rows[e.id], setting.terms, now, setting.names[w], e.leaseToken)],
         issued := s.issued + {e.leaseToken},
         stages := s.stages[w := Delivering(e)])
    case Reclaims(now) => s.(rows := ReclaimAll(s.rows, setting.scope, setting.terms, now))
    case Delivers(w, added, reported) =>
      var e := s.stages[w].event;
      var queue := Enqueued(setting, s.queue, e, added);
      s.(queue := queue, stages := s.stages[w := DeliveredStage(setting, queue, e, reported)])
    case Publishes(w, now, executed, answered) =>
      var e := s.stages[w].event;
      s.(rows := if executed && HeldBy(s.rows, e, setting.names[w], now)
                 then s.rows[e.id := Finished(s.rows[e.id], now)] else s.rows,
         stages := s.stages[w := if executed && answered then Resting else Failing(e, "OUTBOX_PUBLISH_FAILED")])
    case Retries(w, now, executed, answered) =>
      var e := s.stages[w].event;
      s.(rows := if executed && HeldBy(s.rows, e, setting.names[w], now)
                 then s.rows[e.id := Retried(s.rows[e.id], setting.terms, now, s.stages[w].code)] else s.rows,
         stages := s.stages[w := Resting])
    case Crashes(w) => s.(stages := s.stages[w := Resting])
  }

  // ---------- what every effect keeps ----------

  predicate StageFits(setting: Setting, issued: set<Id>, queue: map<Id, string>, stage: Stage) {
    stage.Resting? || (
      && setting.Stores(stage.event) && stage.event.leaseToken in issued
      && (stage.Settling? ==> stage.event.id in queue))
  }

  ghost predicate StagesFit(setting: Setting, issued: set<Id>, queue: map<Id, string>, stages: map<Id, Stage>) {
    && stages.Keys == setting.names.Keys
    && forall w | w in stages :: StageFits(setting, issued, queue, stages[w])
  }

  // Only what the schema allows is enqueued.
  ghost predicate QueueFits(setting: Setting, queue: map<Id, string>) {
    forall i | i in queue ::
      && i in setting.bodies
      && queue[i] == setting.bodies[i].payload
      && setting.bodies[i].topic == NODE_SYNC_REQUESTED
      && setting.parses(queue[i])
  }

  // Whatever is published has been enqueued.
  ghost predicate PublishedAreQueued(rows: Table, queue: map<Id, string>) {
    forall i | i in rows && rows[i].status.Completed? :: i in queue
  }

  // An event is given up only when all its attempts are used up.
  ghost predicate GivenUpAreExhausted(rows: Table, terms: Terms) {
    forall i | i in rows && rows[i].status.Failed? :: rows[i].attempts == terms.maxAttempts
  }

  ghost predicate Fits(setting: Setting, s: Scene) {
    && s.rows.Keys == setting.bodies.Keys
    && TableFits(s.rows, setting.terms, s.issued)
    && StagesFit(setting, s.issued, s.queue, s.stages)
    && QueueFits(setting, s.queue)
    && PublishedAreQueued(s.rows, s.queue)
    && GivenUpAreExhausted(s.rows, setting.terms)
  }

  ghost predicate QueueGrows(a: map<Id, string>, b: map<Id, string>) {
    forall i | i in a :: i in b && b[i] == a[i]
  }

  // What an observer can rely on from one moment to a later one.
  ghost predicate Onwards(setting: Setting, a: Scene, b: Scene) {
    && a.issued <= b.issued
    && TableEvolves(a.rows, b.rows, setting.terms, a.issued)
    && QueueGrows(a.queue, b.queue)
  }

  lemma OnwardsOnwards(setting: Setting, a: Scene, b: Scene, c: Scene)
    requires Onwards(setting, a, b) && Onwards(setting, b, c)
    ensures Onwards(setting, a, c)
  {
    TableEvolvesOnwards(a.rows, b.rows, c.rows, setting.terms, a.issued, b.issued);
  }

  lemma NothingHappens(setting: Setting, s: Scene)
    requires Fits(setting, s)
    ensures Onwards(setting, s, s)
  {
    TableStays(s.rows, setting.terms, s.issued);
  }

  lemma StageChanges(setting: Setting, issued: set<Id>, queue: map<Id, string>, stages: map<Id, Stage>, w: Id,
                     next: Stage)
    requires StagesFit(setting, issued, queue, stages) && w in stages && StageFits(setting, issued, queue, next)
    ensures StagesFit(setting, issued, queue, stages[w := next])
  {
  }

  lemma StagesStillFit(setting: Setting, issued: set<Id>, queue: map<Id, string>, stages: map<Id, Stage>,
                       moreIssued: set<Id>, moreQueue: map<Id, string>)
    requires StagesFit(setting, issued, queue, stages) && issued <= moreIssued && QueueGrows(queue, moreQueue)
    ensures StagesFit(setting, moreIssued, moreQueue, stages)
  {
  }

  lemma ClaimFits(setting: Setting, effect: Effect, s: Scene)
    requires Fits(setting, s) && effect.Claims? && Possible(setting, effect, s)
    ensures Fits(setting, After(setting, effect, s)) && Onwards(setting, s, After(setting, effect, s))
  {
    hide TableFits, TableEvolves, StagesFit, QueueFits;
    if effect.event.None? {
      NothingHappens(setting, s);
    } else {
      var w, e := effect.w, effect.event.value;
      assert ClaimableIn(s.rows, setting.scope, setting.terms, e.id, effect.now);
      ClaimedTableFits(s.rows, e.id, setting.terms, effect.now, setting.names[w], e.leaseToken, s.issued);
      StagesStillFit(setting, s.issued, s.queue, s.stages, s.issued + {e.leaseToken}, s.queue);
      StageChanges(setting, s.issued + {e.leaseToken}, s.queue, s.stages, w, Delivering(e));
    }
  }

  lemma ReclaimFits(setting: Setting, effect: Effect, s: Scene)
    requires Fits(setting, s) && effect.Reclaims?
    ensures Fits(setting, After(setting, effect, s)) && Onwards(setting, s, After(setting, effect, s))
  {
    hide TableFits, TableEvolves, StagesFit, QueueFits, ReclaimAll, PublishedAreQueued, GivenUpAreExhausted;
    ReclaimAllFits(s.rows, setting.scope, setting.terms, effect.now, s.issued);
    ReclaimKeepsQueued(setting, s, effect.now);
    ReclaimGivesUpExhausted(setting, s, effect.now);
  }

  lemma ReclaimKeepsQueued(setting: Setting, s: Scene, now: int)
    requires PublishedAreQueued(s.rows, s.queue)
    ensures ReclaimAll(s.rows, setting.scope, setting.terms, now).Keys == s.rows.Keys
    ensures PublishedAreQueued(ReclaimAll(s.rows, setting.scope, setting.terms, now), s.queue)
  {
  }

  lemma ReclaimGivesUpExhausted(setting: Setting, s: Scene, now: int)
    requires TableFits(s.rows, setting.terms, s.issued) && GivenUpAreExhausted(s.rows, setting.terms)
    ensures GivenUpAreExhausted(ReclaimAll(s.rows, setting.scope, setting.terms, now), setting.terms)
  {
    hide TableFits;
    RowsFit(s.rows, setting.terms, s.issued);
  }

  lemma DeliveryFits(setting: Setting, effect: Effect, s: Scene)
    requires Fits(setting, s) && effect.Delivers? && Possible(setting, effect, s)
    ensures Fits(setting, After(setting, effect, s)) && Onwards(setting, s, After(setting, effect, s))
  {
    hide TableFits, TableEvolves;
    var w, e := effect.w, s.stages[effect.w].event;
    var queue := Enqueued(setting, s.queue, e, effect.added);
    var next := DeliveredStage(setting, queue, e, effect.reported);
    assert StageFits(setting, s.issued, s.queue, s.stages[w]);
    hide StagesFit;
    NothingHappens(setting, s);
    StagesStillFit(setting, s.issued, s.queue, s.stages, s.issued, queue);
    StageChanges(setting, s.issued, queue, s.stages, w, next);
  }

  // A row that its holder finishes or gives back.
  lemma HeldRowFits(setting: Setting, s: Scene, e: ClaimedEvent, owner: string, now: int, code: string)
    requires TableFits(s.rows, setting.terms, s.issued) && HeldBy(s.rows, e, owner, now)
    ensures var published := s.rows[e.id := Finished(s.rows[e.id], now)];
            TableFits(published, setting.terms, s.issued) && TableEvolves(s.rows, published, setting.terms, s.issued)
    ensures var retried := s.rows[e.id := Retried(s.rows[e.id], setting.terms, now, code)];
            TableFits(retried, setting.terms, s.issued) && TableEvolves(s.rows, retried, setting.terms, s.issued)
    ensures s.rows[e.id].attempts <= setting.terms.maxAttempts
  {
    RowsFit(s.rows, setting.terms, s.issued);
    assert WorkFits(s.rows[e.id], setting.terms);
    hide TableFits, TableEvolves, WorkFits, WorkEvolves;
    ChangesFit(s.rows[e.id], setting.terms, now, owner, e.leaseToken, code);
    ReleasedRowFits(s.rows, e.id, Finished(s.rows[e.id], now), setting.terms, s.issued);
    ReleasedRowFits(s.rows, e.id, Retried(s.rows[e.id], setting.terms, now, code), setting.terms, s.issued);
  }

  lemma PublicationFits(setting: Setting, effect: Effect, s: Scene)
    requires Fits(setting, s) && effect.Publishes? && Possible(setting, effect, s)
    ensures Fits(setting, After(setting, effect, s)) && Onwards(setting, s, After(setting, effect, s))
  {
    hide TableFits, TableEvolves, QueueFits, Holds;
    var w, e := effect.w, s.stages[effect.w].event;
    assert StageFits(setting, s.issued, s.queue, s.stages[w]);
    hide StagesFit;
    NothingHappens(setting, s);
    StageChanges(setting, s.issued, s.queue, s.stages, w, Resting);
    StageChanges(setting, s.issued, s.queue, s.stages, w, Failing(e, "OUTBOX_PUBLISH_FAILED"));
    if HeldBy(s.rows, e, setting.names[w], effect.now) {
      HeldRowFits(setting, s, e, setting.names[w], effect.now, "");
    }
  }

  lemma RetryFits(setting: Setting, effect: Effect, s: Scene)
    requires Fits(setting, s) && effect.Retries? && Possible(setting, effect, s)
    ensures Fits(setting, After(setting, effect, s)) && Onwards(setting, s, After(setting, effect, s))
  {
    hide TableFits, TableEvolves, QueueFits, StagesFit, Holds;
    var w, e, code := effect.w, s.stages[effect.w].event, s.stages[effect.w].code;
    NothingHappens(setting, s);
    StageChanges(setting, s.issued, s.queue, s.stages, w, Resting);
    if HeldBy(s.rows, e, setting.names[w], effect.now) {
      HeldRowFits(setting, s, e, setting.names[w], effect.now, code);
    }
  }

  lemma EffectFits(setting: Setting, effect: Effect, s: Scene)
    requires Fits(setting, s) && Possible(setting, effect, s)
    ensures Fits(setting, After(setting, effect, s)) && Onwards(setting, s, After(setting, effect, s))
  {
    match effect
    case Claims(_, _, _) => ClaimFits(setting, effect, s);
    case Reclaims(_) => ReclaimFits(setting, effect, s);
    case Delivers(_, _, _) => DeliveryFits(setting, effect, s);
    case Publishes(_, _, _, _) => PublicationFits(setting, effect, s);
    case Retries(_, _, _, _) => RetryFits(setting, effect, s);
    case Crashes(w) =>
      hide TableFits, TableEvolves, QueueFits, StagesFit;
      NothingHappens(setting, s);
      StageChanges(setting, s.issued, s.queue, s.stages, w, Resting);
  }

  // ---------- every sequence of effects ----------

  ghost predicate IsRun(setting: Setting, scenes: seq<Scene>, effects: seq<Effect>) {
    && |scenes| == |effects| + 1
    && Fits(setting, scenes[0])
    && forall i | 0 <= i < |effects| ::
         Possible(setting, effects[i], scenes[i]) && scenes[i + 1] == After(setting, effects[i], scenes[i])
  }

  lemma {:induction false} RunFits(setting: Setting, scenes: seq<Scene>, effects: seq<Effect>, i: nat, j: nat)
    requires IsRun(setting, scenes, effects) && i <= j < |scenes|
    ensures Fits(setting, scenes[i]) && Fits(setting, scenes[j]) && Onwards(setting, scenes[i], scenes[j])
    decreases j
  {
    hide Fits, Onwards, Possible, After;
    if i < j {
      RunFits(setting, scenes, effects, i, j - 1);
      assert Possible(setting, effects[j - 1], scenes[j - 1]);
      EffectFits(setting, effects[j - 1], scenes[j - 1]);
      OnwardsOnwards(setting, scenes[i], scenes[j - 1], scenes[j]);
    } else {
      if j > 0 {
        RunFits(setting, scenes, effects, j - 1, j - 1);
        assert Possible(setting, effects[j - 1], scenes[j - 1]);
        EffectFits(setting, effects[j - 1], scenes[j - 1]);
      }
      NothingHappens(setting, scenes[j]);
    }
  }

  // No event is lost: at every moment of a run it is published, or all its attempts are used up, or
  // from some instant on a sweep leaves it there for any publisher to claim.
  lemma NoEventIsLost(setting: Setting, scenes: seq<Scene>, effects: seq<Effect>, j: nat, id: Id) returns (from: int)
    requires IsRun(setting, scenes, effects) && j < |scenes| && id in scenes[j].rows
    ensures var w := scenes[j].rows[id];
            || (w.status.Completed? && id in scenes[j].queue)
            || w.attempts == setting.terms.maxAttempts
            || forall now | from <= now ::
                 Claimable(if Reclaimable(w, setting.terms, now) then Reclaimed(w, setting.terms, now) else w,
                           setting.terms, now)
  {
    RunFits(setting, scenes, effects, j, j);
    var w := scenes[j].rows[id];
    RowsFit(scenes[j].rows, setting.terms, scenes[j].issued);
    hide Fits, TableFits, Reclaimed, Claimable, Reclaimable;
    var retry := if w.nextAttemptAt.Some? then w.nextAttemptAt.value else 0;
    var expiry := if w.leaseExpiresAt.Some? then w.leaseExpiresAt.value else 0;
    from := if retry < expiry then expiry else retry;
    FitsTells(setting, scenes[j], id);
    if !Terminal(w) && w.attempts < setting.terms.maxAttempts {
      forall now | from <= now
        ensures Claimable(if Reclaimable(w, setting.terms, now) then Reclaimed(w, setting.terms, now) else w,
                          setting.terms, now)
      {
        NoWorkIsLost(w, setting.terms, now);
      }
    }
  }

  lemma FitsTells(setting: Setting, s: Scene, id: Id)
    requires Fits(setting, s) && id in s.rows
    ensures WorkFits(s.rows[id], setting.terms)
    ensures s.rows[id].status.Completed? ==> id in s.queue
    ensures s.rows[id].status.Failed? ==> s.rows[id].attempts == setting.terms.maxAttempts
  {
  }

  // The effect marks the event published.
  ghost predicate Marks(setting: Setting, effect: Effect, s: Scene, id: Id) {
    && effect.Publishes? && Possible(setting, effect, s) && effect.executed
    && s.stages[effect.w].event.id == id
    && HeldBy(s.rows, s.stages[effect.w].event, setting.names[effect.w], effect.now)
  }

  lemma MarkingCompletes(setting: Setting, effect: Effect, s: Scene, id: Id)
    requires Fits(setting, s) && Marks(setting, effect, s, id)
    ensures id in s.rows && s.rows[id].status.Processing?
    ensures id in After(setting, effect, s).rows && After(setting, effect, s).rows[id].status.Completed?
    ensures id in s.queue && id in setting.bodies && s.queue[id] == setting.bodies[id].payload
  {
    hide TableFits;
    assert StageFits(setting, s.issued, s.queue, s.stages[effect.w]);
  }

  lemma CompletedStays(setting: Setting, a: Scene, b: Scene, id: Id)
    requires Onwards(setting, a, b) && id in a.rows && a.rows[id].status.Completed?
    ensures id in b.rows && b.rows[id] == a.rows[id]
  {
  }

  // An event is published only by being marked so, at most once in a run, and has been enqueued
  // with its own payload before that.
  lemma PublishedOnceAfterEnqueueing(setting: Setting, scenes: seq<Scene>, effects: seq<Effect>, id: Id, i: nat, j: nat)
    requires IsRun(setting, scenes, effects) && i <= j < |effects|
    requires Marks(setting, effects[i], scenes[i], id) && Marks(setting, effects[j], scenes[j], id)
    ensures i == j
    ensures id in scenes[i].queue && id in setting.bodies && scenes[i].queue[id] == setting.bodies[id].payload
  {
    assert scenes[i + 1] == After(setting, effects[i], scenes[i]);
    hide Fits, Onwards, Possible, After, Marks;
    RunFits(setting, scenes, effects, i, j);
    MarkingCompletes(setting, effects[i], scenes[i], id);
    if i < j {
      MarkingCompletes(setting, effects[j], scenes[j], id);
      RunFits(setting, scenes, effects, i + 1, j);
      CompletedStays(setting, scenes[i + 1], scenes[j], id);
    }
  }

  lemma {:induction false} PublishedByMarking(setting: Setting, scenes: seq<Scene>, effects: seq<Effect>, id: Id,
                                              j: nat)
    returns (i: nat)
    requires IsRun(setting, scenes, effects) && j < |scenes| && id in scenes[j].rows
             && scenes[j].rows[id].status.Completed?
    requires id in scenes[0].rows && !scenes[0].rows[id].status.Completed?
    ensures i < j && Marks(setting, effects[i], scenes[i], id)
  {
    hide Fits, Onwards, Possible, After, Marks;
    i := j - 1;
    RunFits(setting, scenes, effects, 0, i);
    RowsRemain(setting, scenes[0], scenes[i], id);
    assert scenes[i + 1] == After(setting, effects[i], scenes[i]);
    if scenes[i].rows[id].status.Completed? {
      i := PublishedByMarking(setting, scenes, effects, id, i);
    } else {
      OnlyMarkingPublishes(setting, effects[i], scenes[i], id);
    }
  }

  lemma RowsRemain(setting: Setting, a: Scene, b: Scene, id: Id)
    requires Onwards(setting, a, b) && id in a.rows
    ensures id in b.rows
  {
  }

  lemma OnlyMarkingPublishes(setting: Setting, effect: Effect, s: Scene, id: Id)
    requires Possible(setting, effect, s) && id in s.rows && !s.rows[id].status.Completed?
    requires id in After(setting, effect, s).rows && After(setting, effect, s).rows[id].status.Completed?
    ensures Marks(setting, effect, s, id)
  {
    hide OldestIn;
  }

  // A publisher whose lease has ended changes no row any more, whatever it still believes.
  lemma EndedLeaseChangesNothing(setting: Setting, scenes: seq<Scene>, effects: seq<Effect>, token: Id, i: nat, j: nat)
    requires IsRun(setting, scenes, effects) && i <= j < |effects|
    requires token in scenes[i].issued && !HeldSomewhere(scenes[i].rows, token)
    requires effects[j].Publishes? || effects[j].Retries?
    requires effects[j].w in scenes[j].stages && !scenes[j].stages[effects[j].w].Resting?
    requires scenes[j].stages[effects[j].w].event.leaseToken == token
    ensures scenes[j + 1].rows == scenes[j].rows
  {
    RunFits(setting, scenes, effects, i, j);
    assert Possible(setting, effects[j], scenes[j]) && scenes[j + 1] == After(setting, effects[j], scenes[j]);
    hide Fits, TableEvolves, Holds, OldestIn, NoneClaimableIn;
    EndedLeaseIsFenced(scenes[i].rows, scenes[j].rows, setting.terms, scenes[i].issued,
                       setting.names[effects[j].w], token, effects[j].now);
  }

  lemma RunBegins(setting: Setting, s: Scene)
    requires Fits(setting, s)
    ensures IsRun(setting, [s], [])
  {
  }

  lemma RunGoesOn(setting: Setting, scenes: seq<Scene>, effects: seq<Effect>, effect: Effect)
    requires IsRun(setting, scenes, effects) && Possible(setting, effect, scenes[|effects|])
    ensures IsRun(setting, scenes + [After(setting, effect, scenes[|effects|])], effects + [effect])
  {
    hide Fits, Possible, After;
  }
}
