/**
 * Delivery of payment notifications: the claim row that lets one delivery process an event, the
 * stored answer later deliveries replay, crashes between the two, and the takeover of stalled claims.
 */
module Webhook {
  import opened Basics
  import opened Tables
  import opened Transactions

  const CLAIM_TAKEOVER_MS: Time := 60_000

  /** Longest wait for a transaction slot plus longest transaction: a claimant past it can no longer commit. */
  const PROCESSING_LIMIT_MS: Time := 15_000 + 20_000

  /** The claim and ledger row of one event; the answer is written with the effect it describes. */
  datatype EventRow = EventRow(receivedAt: Time, answer: Option<Outcome>)

  datatype ClaimResult = Claimed | InFlight | Replay(answer: Outcome)

  /** What the unique index, the stored answer and the age of the claim decide. */
  function ClaimEvent(events: map<nat, EventRow>, eventId: nat, now: Time): ClaimResult {
    if eventId !in events then Claimed
    else if events[eventId].answer.Some? then Replay(events[eventId].answer.value)
    else if events[eventId].receivedAt + CLAIM_TAKEOVER_MS <= now then Claimed
    else InFlight
  }

  function ClaimedEvents(events: map<nat, EventRow>, eventId: nat, now: Time): map<nat, EventRow> {
    if eventId !in events then events[eventId := EventRow(now, None)] else events
  }

  datatype Reply = Fresh(answer: Outcome) | Duplicate(answer: Outcome) | TryLater

  datatype WorkerState = Working(claimedAt: Time) | Crashed | Replied(reply: Reply)

  datatype Worker = Worker(n: Notification, state: WorkerState)

  /** `commits` lists the events of the processing transactions that committed. */
  datatype Sys = Sys(db: Db, events: map<nat, EventRow>, workers: seq<Worker>, commits: seq<nat>)

  datatype Move =
    | Deliver(n: Notification)
    | Process(i: nat)
    | Crash(i: nat)
    | Elsewhere(step: Step)

  predicate Live(w: Worker, now: Time) {
    w.state.Working? && now <= w.state.claimedAt + PROCESSING_LIMIT_MS
  }

  predicate Enabled(s: Sys, m: Move) {
    match m
    case Deliver(_) => true
    case Process(i) => i < |s.workers| && Live(s.workers[i], s.db.now) && s.workers[i].n.eventId in s.events
    case Crash(i) => i < |s.workers| && s.workers[i].state.Working?
    case Elsewhere(step) => !step.Notify?
  }

  function Next(cfg: Config, s: Sys, m: Move): Sys
    requires Enabled(s, m)
  {
    match m
    case Deliver(n) =>
      var state := match ClaimEvent(s.events, n.eventId, s.db.now)
                   case Claimed => Working(s.db.now)
                   case InFlight => Replied(TryLater)
                   case Replay(answer) => Replied(Duplicate(answer));
      s.(events := ClaimedEvents(s.events, n.eventId, s.db.now), workers := s.workers + [Worker(n, state)])
    case Process(i) =>
      var n := s.workers[i].n;
      var (db', answer) := ProcessNotification(s.db, n);
      Sys(db', s.events[n.eventId := s.events[n.eventId].(answer := Some(answer))],
          s.workers[i := s.workers[i].(state := Replied(Fresh(answer)))], s.commits + [n.eventId])
    case Crash(i) => s.(workers := s.workers[i := s.workers[i].(state := Crashed)])
    case Elsewhere(step) => s.(db := Apply(cfg, s.db, step))
  }

  function Occurrences(commits: seq<nat>, e: nat): nat {
    if |commits| == 0 then 0
    else Occurrences(commits[..|commits| - 1], e) + if commits[|commits| - 1] == e then 1 else 0
  }

  /** An answer handed out for an event is the answer stored for it. */
  predicate ReplyOk(events: map<nat, EventRow>, w: Worker) {
    w.state.Replied? && !w.state.reply.TryLater? ==>
      w.n.eventId in events && events[w.n.eventId].answer == Some(w.state.reply.answer)
  }

  ghost predicate Once(s: Sys) {
    && (forall e :: Occurrences(s.commits, e) == if e in s.events && s.events[e].answer.Some? then 1 else 0)
    && (forall e | e in s.events :: s.events[e].receivedAt <= s.db.now)
    && (forall i | 0 <= i < |s.workers| ::
          && ReplyOk(s.events, s.workers[i])
          && (s.workers[i].state.Working? ==> s.workers[i].state.claimedAt <= s.db.now)
          && (Live(s.workers[i], s.db.now) ==> s.workers[i].n.eventId in s.events && s.events[s.workers[i].n.eventId].answer.None?))
    && (forall i, j | 0 <= i < j < |s.workers| && Live(s.workers[i], s.db.now) && Live(s.workers[j], s.db.now) ::
          s.workers[i].n.eventId != s.workers[j].n.eventId)
  }

  /** No delivery takes an event over from a claimant that can still commit. */
  ghost predicate TakesOverOnlyTheDead(s: Sys, m: Move) {
    m.Deliver? && m.n.eventId in s.events && ClaimEvent(s.events, m.n.eventId, s.db.now).Claimed? ==>
      forall i | 0 <= i < |s.workers| && s.workers[i].n.eventId == m.n.eventId :: !Live(s.workers[i], s.db.now)
  }

  lemma ClockOnlyForward(cfg: Config, db: Db, step: Step)
    ensures Apply(cfg, db, step).now >= db.now
  {}

  lemma DeliverKeepsOnce(cfg: Config, s: Sys, n: Notification)
    requires Once(s)
    ensures Once(Next(cfg, s, Deliver(n))) <==> TakesOverOnlyTheDead(s, Deliver(n))
  {
    var s' := Next(cfg, s, Deliver(n));
    var k := |s.workers|;
    forall i | 0 <= i < k ensures s'.workers[i] == s.workers[i] {}
    if !TakesOverOnlyTheDead(s, Deliver(n)) {
      var i :| 0 <= i < k && s.workers[i].n.eventId == n.eventId && Live(s.workers[i], s.db.now);
      assert Live(s'.workers[i], s'.db.now) && Live(s'.workers[k], s'.db.now);
      assert !Once(s');
    }
  }

  lemma ProcessKeepsOnce(cfg: Config, s: Sys, i: nat)
    requires Once(s) && Enabled(s, Process(i))
    ensures Once(Next(cfg, s, Process(i)))
  {
    var s' := Next(cfg, s, Process(i));
    forall x ensures Occurrences(s'.commits, x) == if x in s'.events && s'.events[x].answer.Some? then 1 else 0 {}
  }

  /** A move keeps the single effect exactly when it does not take an event over from a live claimant. */
  lemma MoveKeepsOnce(cfg: Config, s: Sys, m: Move)
    requires Once(s) && Enabled(s, m)
    ensures Once(Next(cfg, s, m)) <==> TakesOverOnlyTheDead(s, m)
  {
    match m
    case Deliver(n) => DeliverKeepsOnce(cfg, s, n);
    case Process(i) => ProcessKeepsOnce(cfg, s, i);
    case Crash(_) =>
    case Elsewhere(step) => ClockOnlyForward(cfg, s.db, step);
  }

  // ---- whole histories

  ghost function Play(cfg: Config, db: Db, moves: seq<Move>): Option<Sys> {
    if |moves| == 0 then Some(Sys(db, map[], [], []))
    else
      var before := Play(cfg, db, moves[..|moves| - 1]);
      if before.Some? && Enabled(before.value, moves[|moves| - 1])
      then Some(Next(cfg, before.value, moves[|moves| - 1])) else None
  }

  ghost predicate SafePlay(cfg: Config, db: Db, moves: seq<Move>) {
    |moves| == 0
    || (SafePlay(cfg, db, moves[..|moves| - 1])
        && var before := Play(cfg, db, moves[..|moves| - 1]);
           before.Some? ==> TakesOverOnlyTheDead(before.value, moves[|moves| - 1]))
  }

  /**
   * Exactly once: over any deliveries, crashes and takeovers from the dead, an event's processing
   * commits at most once, it has committed exactly when its answer is stored, and every answer ever
   * handed out for it is that one.
   */
  lemma {:induction false} ProcessedOnce(cfg: Config, db: Db, moves: seq<Move>, e: nat)
    requires SafePlay(cfg, db, moves) && Play(cfg, db, moves).Some?
    ensures var s := Play(cfg, db, moves).value;
            && Once(s)
            && Occurrences(s.commits, e) <= 1
            && (Occurrences(s.commits, e) == 1 <==> e in s.events && s.events[e].answer.Some?)
            && forall i | 0 <= i < |s.workers| && s.workers[i].n.eventId == e :: ReplyOk(s.events, s.workers[i])
  {
    if |moves| > 0 {
      var front := moves[..|moves| - 1];
      ProcessedOnce(cfg, db, front, e);
      MoveKeepsOnce(cfg, Play(cfg, db, front).value, moves[|moves| - 1]);
    }
  }

  /** Redelivering an answered event replays its answer and changes no row. */
  lemma RedeliveryChangesNothing(cfg: Config, s: Sys, n: Notification)
    requires n.eventId in s.events && s.events[n.eventId].answer.Some?
    ensures var s' := Next(cfg, s, Deliver(n));
            && s'.db == s.db && s'.events == s.events && s'.commits == s.commits
            && s'.workers[|s.workers|].state == Replied(Duplicate(s.events[n.eventId].answer.value))
  {}

  /**
   * A first delivery, and any made at least a minute after an unanswered one, can be processed at once and
   * leaves the answer with the change it describes; one made within that minute changes nothing.
   */
  lemma DeliveryIsProcessed(cfg: Config, s: Sys, n: Notification)
    requires n.eventId in s.events ==> s.events[n.eventId].answer.None?
    ensures var k, claimed := |s.workers|, Next(cfg, s, Deliver(n));
            if n.eventId in s.events && s.db.now < s.events[n.eventId].receivedAt + 60_000 then
              claimed.db == s.db && claimed.events == s.events && claimed.workers[k].state == Replied(TryLater)
            else
              && Enabled(claimed, Process(k)) && n.eventId in claimed.events
              && claimed.events[n.eventId].receivedAt == (if n.eventId in s.events then s.events[n.eventId].receivedAt else s.db.now)
              && var done, (db', answer) := Next(cfg, claimed, Process(k)), ProcessNotification(s.db, n);
                 done.db == db' && n.eventId in done.events && done.events[n.eventId].answer == Some(answer)
                 && done.workers[k].state == Replied(Fresh(answer))
  {}

  // ---- how far the takeover age protects

  /**
   * The first takeover of an event is always from the dead: a claimant as old as the row is past the
   * transaction limits by the time the row may be taken over.
   */
  lemma FirstTakeoverIsSafe(s: Sys, n: Notification)
    requires n.eventId in s.events
    requires forall i | 0 <= i < |s.workers| && s.workers[i].n.eventId == n.eventId && s.workers[i].state.Working? ::
               s.workers[i].state.claimedAt == s.events[n.eventId].receivedAt
    ensures TakesOverOnlyTheDead(s, Deliver(n))
  {}

  /**
   * A takeover does not renew the age of the claim, so two deliveries of one stalled event both take
   * it over, and both of their transactions commit.
   */
  lemma StalledEventCanCommitTwice(cfg: Config, s: Sys, n: Notification)
    requires Once(s) && n.eventId in s.events && s.events[n.eventId].answer.None?
    requires s.events[n.eventId].receivedAt + CLAIM_TAKEOVER_MS <= s.db.now
    ensures var k := |s.workers|;
            var first := Next(cfg, s, Deliver(n));
            var both := Next(cfg, first, Deliver(n));
            && Enabled(both, Process(k))
            && Enabled(Next(cfg, both, Process(k)), Process(k + 1))
            && Occurrences(Next(cfg, Next(cfg, both, Process(k)), Process(k + 1)).commits, n.eventId) == 2
  {
    var k := |s.workers|;
    var both := Next(cfg, Next(cfg, s, Deliver(n)), Deliver(n));
    var once := Next(cfg, both, Process(k));
    assert both.workers[k].n == n && both.workers[k + 1].n == n && once.workers[k + 1] == both.workers[k + 1];
  }

  lemma PlaySnoc(cfg: Config, db: Db, moves: seq<Move>, m: Move)
    requires Play(cfg, db, moves).Some? && Enabled(Play(cfg, db, moves).value, m)
    ensures Play(cfg, db, moves + [m]) == Some(Next(cfg, Play(cfg, db, moves).value, m))
  {
    assert (moves + [m])[..|moves|] == moves;
  }

  lemma PlayTwo(cfg: Config, db: Db, moves: seq<Move>, s: Sys, a: Move, b: Move)
    requires Play(cfg, db, moves) == Some(s) && Enabled(s, a) && Enabled(Next(cfg, s, a), b)
    ensures Play(cfg, db, moves + [a] + [b]) == Some(Next(cfg, Next(cfg, s, a), b))
  {
    PlaySnoc(cfg, db, moves, a);
    PlaySnoc(cfg, db, moves + [a], b);
  }

  /** A delivery that crashes, and a minute later two redeliveries. */
  function CrashThenTwice(n: Notification): seq<Move> {
    [Deliver(n), Crash(0), Elsewhere(Step.Tick(CLAIM_TAKEOVER_MS))] + [Deliver(n)] + [Deliver(n)] + [Process(1)] + [Process(2)]
  }

  lemma Delivered(cfg: Config, db: Db, n: Notification)
    ensures Play(cfg, db, [Deliver(n)])
            == Some(Sys(db, map[n.eventId := EventRow(db.now, None)], [Worker(n, Working(db.now))], []))
  {
    assert Play(cfg, db, []) == Some(Sys(db, map[], [], []));
    PlaySnoc(cfg, db, [], Deliver(n));
    assert [] + [Deliver(n)] == [Deliver(n)];
    var start := Sys(db, map[], [], []);
    assert Enabled(start, Deliver(n)) && ClaimEvent(start.events, n.eventId, db.now) == Claimed;
    assert Next(cfg, start, Deliver(n)).workers == [Worker(n, Working(db.now))];
    assert Next(cfg, start, Deliver(n)).events == map[n.eventId := EventRow(db.now, None)];
    assert Next(cfg, start, Deliver(n)).commits == [];
  }

  lemma Crashes(cfg: Config, db: Db, n: Notification)
    ensures Play(cfg, db, [Deliver(n), Crash(0)])
            == Some(Sys(db, map[n.eventId := EventRow(db.now, None)], [Worker(n, Crashed)], []))
  {
    Delivered(cfg, db, n);
    PlaySnoc(cfg, db, [Deliver(n)], Crash(0));
    var claimed := Play(cfg, db, [Deliver(n)]).value;
    assert Next(cfg, claimed, Crash(0)).workers == [Worker(n, Crashed)];
    assert [Deliver(n)] + [Crash(0)] == [Deliver(n), Crash(0)];
  }

  lemma CrashedDelivery(cfg: Config, db: Db, n: Notification)
    ensures Play(cfg, db, [Deliver(n), Crash(0), Elsewhere(Step.Tick(CLAIM_TAKEOVER_MS))])
            == Some(Sys(db.(now := db.now + CLAIM_TAKEOVER_MS), map[n.eventId := EventRow(db.now, None)], [Worker(n, Crashed)], []))
  {
    Crashes(cfg, db, n);
    PlaySnoc(cfg, db, [Deliver(n), Crash(0)], Elsewhere(Step.Tick(CLAIM_TAKEOVER_MS)));
    assert [Deliver(n), Crash(0)] + [Elsewhere(Step.Tick(CLAIM_TAKEOVER_MS))] == [Deliver(n), Crash(0), Elsewhere(Step.Tick(CLAIM_TAKEOVER_MS))];
  }

  /** From any tables and for any notification, that history commits the processing of its event twice. */
  lemma DoubleCommitIsReachable(cfg: Config, db: Db, n: Notification)
    ensures Play(cfg, db, CrashThenTwice(n)).Some?
    ensures Occurrences(Play(cfg, db, CrashThenTwice(n)).value.commits, n.eventId) == 2
  {
    var moves := [Deliver(n), Crash(0), Elsewhere(Step.Tick(CLAIM_TAKEOVER_MS))];
    CrashedDelivery(cfg, db, n);
    var stalled := Play(cfg, db, moves).value;
    DoubleCommitFrom(cfg, db, moves, stalled, n);
  }

  lemma DoubleCommitFrom(cfg: Config, db: Db, moves: seq<Move>, s: Sys, n: Notification)
    requires Play(cfg, db, moves) == Some(s) && Once(s) && |s.workers| == 1
    requires n.eventId in s.events && s.events[n.eventId].answer.None?
    requires s.events[n.eventId].receivedAt + CLAIM_TAKEOVER_MS <= s.db.now
    ensures var end := Play(cfg, db, moves + [Deliver(n)] + [Deliver(n)] + [Process(1)] + [Process(2)]);
            end.Some? && Occurrences(end.value.commits, n.eventId) == 2
  {
    StalledEventCanCommitTwice(cfg, s, n);
    PlayTwo(cfg, db, moves, s, Deliver(n), Deliver(n));
    var both := Next(cfg, Next(cfg, s, Deliver(n)), Deliver(n));
    PlayTwo(cfg, db, moves + [Deliver(n)] + [Deliver(n)], both, Process(1), Process(2));
  }
}
