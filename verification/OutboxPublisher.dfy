// The publishers that hand outbox events to the queue: each effect of theirs is an effect in the
// sense of PublisherRuns, and other publishers may act between any two.
module OutboxPublisher {
  import opened Basics
  import opened Leases
  import opened OutboxStore
  import opened PublisherRuns

  datatype Outcome = Idle | Published | RetriedEvent | FencedEvent | Thrown

  class Publishers {
    const store: PrismaOutboxStore
    // Whether a payload satisfies the event schema.
    const parses: string -> bool
    // The publishers' lease owners.
    const names: map<Id, string>
    var queue: map<Id, string>
    var stages: map<Id, Stage>

    ghost function SettingOf(): Setting {
      Setting(store.bodies, store.Scope(), store.terms, names, parses)
    }

    ghost function Now(): Scene
      reads this, store
    {
      Scene(store.rows, store.issued, queue, stages)
    }

    ghost predicate Valid()
      reads this, store
    {
      store.Valid() && Fits(SettingOf(), Now())
    }

    twostate predicate Took(effect: Effect)
      reads this, store
    {
      Possible(SettingOf(), effect, old(Now())) && Now() == After(SettingOf(), effect, old(Now()))
    }

    constructor (store: PrismaOutboxStore, names: map<Id, string>, parses: string -> bool)
      requires store.Valid() && store.rows == map i | i in store.bodies :: NEW_WORK
      ensures Valid() && this.store == store && this.names == names && fresh(this)
      ensures queue == map[] && stages == map w | w in names :: Resting
    {
      this.store := store;
      this.parses := parses;
      this.names := names;
      this.queue := map[];
      this.stages := map w | w in names :: Resting;
    }

    // Claims the next event, if there is one.
    method Claim(w: Id, now: int) returns (idle: bool, ghost effect: Effect)
      requires Valid() && w in stages && stages[w].Resting?
      modifies this`stages, store
      ensures Valid() && Took(effect)
      ensures effect.Claims? && effect.w == w && effect.now == now && (idle <==> effect.event.None?)
      ensures w in stages && stages[w] == if effect.event.None? then Resting else Delivering(effect.event.value)
    {
      hide Fits, TableFits, TableEvolves, OldestIn, NoneClaimableIn;
      ghost var before := Now();
      KnownWorker(SettingOf(), before, w);
      var claimed := store.ClaimNext(names[w], now);
      idle, effect := claimed.None?, Claims(w, now, claimed);
      assert Possible(SettingOf(), effect, before);
      EffectFits(SettingOf(), effect, before);
      if claimed.Some? {
        stages := stages[w := Delivering(claimed.value)];
      }
    }

    method Reclaim(now: int) returns (ghost effect: Effect)
      requires Valid()
      modifies store
      ensures Valid() && Took(effect) && effect == Reclaims(now) && stages == old(stages)
    {
      hide Fits, TableFits, TableEvolves;
      effect := Reclaims(now);
      EffectFits(SettingOf(), effect, Now());
      store.ReclaimExpiredLeases(now);
    }

    // Adds the event to the queue; the addition may fail, or succeed and yet report a failure.
    method Deliver(w: Id) returns (ghost effect: Effect)
      requires Valid() && w in stages && stages[w].Delivering?
      modifies this`stages, this`queue
      ensures Valid() && Took(effect) && effect.Delivers? && effect.w == w
      ensures w in stages && !stages[w].Resting? && stages[w].event == old(stages)[w].event
      ensures stages[w].Settling? || stages[w].Failing?
      ensures stages[w].Settling? ==> stages[w].event.id in queue
      ensures old(stages)[w].event.topic != "node-sync.requested" ==>
                stages[w] == Failing(old(stages)[w].event, "OUTBOX_UNSUPPORTED_TOPIC") && queue == old(queue)
      ensures old(stages)[w].event.topic == "node-sync.requested" && !parses(old(stages)[w].event.payload) ==>
                stages[w] == Failing(old(stages)[w].event, "OUTBOX_INVALID_PAYLOAD") && queue == old(queue)
      ensures old(stages)[w].event.topic == "node-sync.requested" && parses(old(stages)[w].event.payload) ==>
                (stages[w].Failing? ==> stages[w].code == "OUTBOX_PUBLISH_FAILED")
    {
      hide Fits, TableFits, TableEvolves;
      var event := stages[w].event;
      var added: bool, reported: bool := *, *;
      effect := Delivers(w, added, reported);
      EffectFits(SettingOf(), effect, Now());
      var next: Stage;
      if event.topic != NODE_SYNC_REQUESTED {
        next := Failing(event, "OUTBOX_UNSUPPORTED_TOPIC");
      } else if !parses(event.payload) {
        next := Failing(event, "OUTBOX_INVALID_PAYLOAD");
      } else {
        if added && event.id !in queue {
          queue := queue[event.id := event.payload];
        }
        next := if reported && event.id in queue then Settling(event) else Failing(event, "OUTBOX_PUBLISH_FAILED");
      }
      stages := stages[w := next];
    }

    // Marks the event published if the lease still holds; the statement may be lost, or its answer.
    method MarkPublished(w: Id, now: int) returns (outcome: Outcome, ghost effect: Effect)
      requires Valid() && w in stages && stages[w].Settling?
      modifies this`stages, store
      ensures Valid() && Took(effect) && effect.Publishes? && effect.w == w && effect.now == now
      ensures outcome == Published <==>
                effect.answered && Marks(SettingOf(), effect, old(Now()), old(stages)[w].event.id)
      ensures outcome == Thrown <==> !(effect.executed && effect.answered)
      ensures outcome in {Published, FencedEvent, Thrown}
      ensures w in stages && if outcome == Thrown then stages[w].Failing? else stages[w].Resting?
    {
      hide Fits, TableFits, TableEvolves, Holds;
      ghost var before := Now();
      KnownWorker(SettingOf(), before, w);
      var event := stages[w].event;
      var executed: bool, answered: bool := *, *;
      effect := Publishes(w, now, executed, answered);
      EffectFits(SettingOf(), effect, before);
      var published := false;
      if executed {
        published := store.MarkPublished(event.id, names[w], event.leaseToken, now);
      }
      if executed && answered {
        stages := stages[w := Resting];
        outcome := if published then Published else FencedEvent;
      } else {
        stages := stages[w := Failing(event, "OUTBOX_PUBLISH_FAILED")];
        outcome := Thrown;
      }
    }

    method Retry(w: Id, now: int) returns (outcome: Outcome, ghost effect: Effect)
      requires Valid() && w in stages && stages[w].Failing?
      modifies this`stages, store
      ensures Valid() && Took(effect) && effect.Retries? && effect.w == w && effect.now == now
      ensures outcome == RetriedEvent <==>
                effect.executed && effect.answered && HeldBy(old(store.rows), old(stages)[w].event, names[w], now)
      ensures outcome == Thrown <==> !(effect.executed && effect.answered)
      ensures outcome in {RetriedEvent, FencedEvent, Thrown}
      ensures w in stages && stages[w].Resting?
    {
      hide Fits, TableFits, TableEvolves, Holds;
      ghost var before := Now();
      KnownWorker(SettingOf(), before, w);
      var event, code := stages[w].event, stages[w].code;
      var executed: bool, answered: bool := *, *;
      effect := Retries(w, now, executed, answered);
      EffectFits(SettingOf(), effect, before);
      var retried := false;
      if executed {
        retried := store.Retry(event.id, names[w], event.leaseToken, code, now);
      }
      stages := stages[w := Resting];
      outcome := if !(executed && answered) then Thrown else if retried then RetriedEvent else FencedEvent;
    }

    // A publisher stops at any point; its lease is left to expire.
    method Crash(w: Id) returns (ghost effect: Effect)
      requires Valid() && w in stages
      modifies this`stages
      ensures Valid() && Took(effect) && effect == Crashes(w)
    {
      hide Fits, TableFits, TableEvolves;
      effect := Crashes(w);
      EffectFits(SettingOf(), effect, Now());
      stages := stages[w := Resting];
    }
  }

  lemma KnownWorker(setting: Setting, s: Scene, w: Id)
    requires Fits(setting, s) && w in s.stages
    ensures w in setting.names && s.rows.Keys == setting.bodies.Keys
  {
  }

  // Whose turn it is, and whether that publisher goes on, or the sweep runs, or the publisher stops.
  datatype Turn = GoOn(w: Id) | Sweep | Stop(w: Id)

  predicate TakenBy(effect: Effect, turn: Turn) {
    match turn
    case GoOn(w) => (effect.Claims? || effect.Delivers? || effect.Publishes? || effect.Retries?) && effect.w == w
    case Sweep => effect.Reclaims?
    case Stop(w) => effect == Crashes(w)
  }

  // The next effect of a publisher, wherever it is in its round.
  method TakeTurn(p: Publishers, turn: Turn, now: int) returns (ghost effect: Effect)
    requires p.Valid() && (turn.Sweep? || turn.w in p.names)
    modifies p`stages, p`queue, p.store
    ensures p.Valid() && p.Took(effect) && TakenBy(effect, turn)
  {
    hide Fits, Possible, After;
    AllWorkersHaveStages(p);
    match turn {
    case Sweep =>
      effect := p.Reclaim(now);
    case Stop(w) =>
      effect := p.Crash(w);
    case GoOn(w) =>
      match p.stages[w] {
      case Resting =>
        var idle;
        idle, effect := p.Claim(w, now);
      case Delivering(_) =>
        effect := p.Deliver(w);
      case Settling(_) =>
        var outcome;
        outcome, effect := p.MarkPublished(w, now);
      case Failing(_, _) =>
        var outcome;
        outcome, effect := p.Retry(w, now);
      }
    }
  }

  lemma AllWorkersHaveStages(p: Publishers)
    requires p.Valid()
    ensures p.stages.Keys == p.names.Keys
  {
  }

  // Every other publisher does anything it may do, any number of times.
  method OthersAct(p: Publishers, w: Id)
    requires p.Valid() && w in p.stages
    modifies p`stages, p`queue, p.store
    ensures p.Valid() && w in p.stages && p.stages[w] == old(p.stages)[w]
    ensures Onwards(p.SettingOf(), old(p.Now()), p.Now())
  {
    hide Fits, Possible, Onwards;
    NothingHappens(p.SettingOf(), p.Now());
    var steps: nat :| 0 <= steps;
    for step := 0 to steps
      invariant p.Valid() && w in p.stages && p.stages[w] == old(p.stages)[w]
      invariant Onwards(p.SettingOf(), old(p.Now()), p.Now())
    {
      var turn: Turn, now: int := *, *;
      if turn.Sweep? || (turn.w in p.names && turn.w != w) {
        ghost var before := p.Now();
        ghost var effect := TakeTurn(p, turn, now);
        EffectFits(p.SettingOf(), effect, before);
        OnwardsOnwards(p.SettingOf(), old(p.Now()), before, p.Now());
      }
    }
  }

  // One round of one publisher, with the others acting between any two of its effects.
  method ProcessOne(p: Publishers, w: Id) returns (outcome: Outcome, ghost event: Option<ClaimedEvent>)
    requires p.Valid() && w in p.stages && p.stages[w].Resting?
    modifies p`stages, p`queue, p.store
    ensures p.Valid() && w in p.stages && p.stages[w].Resting?
    ensures Onwards(p.SettingOf(), old(p.Now()), p.Now())
    ensures outcome == Idle <==> event.None?
    ensures outcome == Published ==>
              && event.value.id in p.store.rows && p.store.rows[event.value.id].status.Completed?
              && event.value.id in p.queue && p.SettingOf().Deliverable(event.value)
  {
    hide Fits, Onwards, Possible, Marks, After;
    ghost var setting, start := p.SettingOf(), p.Now();
    NothingHappens(setting, start);
    var now: int := *;
    event := None;
    ghost var effect := p.Reclaim(now);
    MovedOn(setting, start, start, effect, p.Now());
    ghost var before := p.Now();
    OthersAct(p, w);
    OnwardsOnwards(setting, start, before, p.Now());
    before, now := p.Now(), *;
    var idle;
    idle, effect := p.Claim(w, now);
    MovedOn(setting, start, before, effect, p.Now());
    if idle {
      return Idle, None;
    }
    event := effect.event;
    before := p.Now();
    OthersAct(p, w);
    OnwardsOnwards(setting, start, before, p.Now());
    before := p.Now();
    effect := p.Deliver(w);
    MovedOn(setting, start, before, effect, p.Now());
    before := p.Now();
    OthersAct(p, w);
    OnwardsOnwards(setting, start, before, p.Now());
    if p.stages[w].Settling? {
      before, now := p.Now(), *;
      outcome, effect := p.MarkPublished(w, now);
      MovedOn(setting, start, before, effect, p.Now());
      if outcome == Published {
        MarkedIsDeliverable(setting, effect, before);
      }
      if outcome != Thrown {
        return;
      }
      before := p.Now();
      OthersAct(p, w);
      OnwardsOnwards(setting, start, before, p.Now());
    }
    before, now := p.Now(), *;
    outcome, effect := p.Retry(w, now);
    MovedOn(setting, start, before, effect, p.Now());
  }

  lemma MovedOn(setting: Setting, start: Scene, before: Scene, effect: Effect, after: Scene)
    requires Fits(setting, before) && Onwards(setting, start, before)
    requires Possible(setting, effect, before) && after == After(setting, effect, before)
    ensures Onwards(setting, start, after)
  {
    hide Fits, Onwards, Possible, After;
    EffectFits(setting, effect, before);
    OnwardsOnwards(setting, start, before, after);
  }

  lemma MarkedIsDeliverable(setting: Setting, effect: Effect, s: Scene)
    requires Fits(setting, s) && effect.Publishes? && effect.w in s.stages && s.stages[effect.w].Settling?
    requires Marks(setting, effect, s, s.stages[effect.w].event.id)
    ensures var e, after := s.stages[effect.w].event, After(setting, effect, s);
            && setting.Deliverable(e) && e.id in after.queue
            && e.id in after.rows && after.rows[e.id].status.Completed?
  {
    hide TableFits;
    assert StageFits(setting, s.issued, s.queue, s.stages[effect.w]);
  }

  // Whoever takes turns in whatever order, and whatever is lost, what happens is a run from resting
  // publishers, an empty queue and untried events.
  method EveryRun(store: PrismaOutboxStore, names: map<Id, string>, parses: string -> bool, turns: seq<Turn>)
    returns (p: Publishers, ghost scenes: seq<Scene>, ghost effects: seq<Effect>)
    requires store.Valid() && store.rows == map i | i in store.bodies :: NEW_WORK
    requires forall turn | turn in turns :: turn.Sweep? || turn.w in names
    modifies store
    ensures p.Valid() && p.store == store && p.names == names
    ensures IsRun(p.SettingOf(), scenes, effects)
    ensures |effects| == |turns| && forall i | 0 <= i < |turns| :: TakenBy(effects[i], turns[i])
    ensures scenes[|scenes| - 1] == p.Now()
    ensures scenes[0].queue == map[] && scenes[0].rows == map i | i in store.bodies :: NEW_WORK
  {
    hide Fits, Possible, After, TakenBy, IsRun;
    p := new Publishers(store, names, parses);
    scenes, effects := [p.Now()], [];
    RunBegins(p.SettingOf(), p.Now());
    for i := 0 to |turns|
      invariant p.Valid() && p.store == store && p.names == names && fresh(p)
      invariant IsRun(p.SettingOf(), scenes, effects)
      invariant |scenes| == i + 1 && |effects| == i && forall k | 0 <= k < i :: TakenBy(effects[k], turns[k])
      invariant scenes[i] == p.Now()
      invariant scenes[0].queue == map[] && scenes[0].rows == map i | i in store.bodies :: NEW_WORK
    {
      assert turns[i] in turns;
      var now: int := *;
      ghost var effect := TakeTurn(p, turns[i], now);
      RunGoesOn(p.SettingOf(), scenes, effects, effect);
      scenes, effects := scenes + [p.Now()], effects + [effect];
    }
  }
}
