/**
 * Booking idempotency: quotes, claim rows under a unique (user, key) index, workers that book under a
 * claim, crashes, releases and the periodic sweep.
 */
module Idempotency {
  import opened Basics
  import opened Tables

  const IDEMPOTENCY_TTL_MS: Time := 24 * 60 * 60 * 1000
  const IDEMPOTENCY_STALE_MS: Time := 5 * 60 * 1000

  /**
   * The request digest; two bodies share it exactly when their canonical forms are equal. The quote token is
   * part of the body, so the digest tells the quote.
   */
  datatype Digest = Digest(quote: nat, rest: nat)

  datatype ClaimStatus = InProgress | Completed(booking: nat)

  datatype Claim = Claim(user: UserId, key: nat, hash: Digest, status: ClaimStatus, createdAt: Time, expiresAt: Time)

  datatype ClaimTable = ClaimTable(rows: map<nat, Claim>, nextId: nat)

  datatype ClaimResult = Acquired(claimId: nat) | Replay(booking: nat) | DifferentRequest | StillRunning

  predicate Names(c: Claim, user: UserId, key: nat) { c.user == user && c.key == key }

  ghost predicate Taken(t: ClaimTable, user: UserId, key: nat) {
    exists id :: id in t.rows && Names(t.rows[id], user, key)
  }

  /** The row the unique index finds. */
  ghost function Find(t: ClaimTable, user: UserId, key: nat): (id: nat)
    requires Taken(t, user, key)
    ensures id in t.rows && Names(t.rows[id], user, key)
  {
    var id :| id in t.rows && Names(t.rows[id], user, key);
    id
  }

  function NewClaim(user: UserId, key: nat, hash: Digest, now: Time): Claim {
    Claim(user, key, hash, InProgress, now, now + IDEMPOTENCY_TTL_MS)
  }

  /** What an existing row answers to a request that lost the insert. */
  function Resolve(c: Claim, hash: Digest): ClaimResult {
    if c.hash != hash then DifferentRequest
    else if c.status.Completed? then Replay(c.status.booking)
    else StillRunning
  }

  /** Insert first; on a violation of the unique index, let the existing row answer. */
  ghost function ClaimKey(t: ClaimTable, user: UserId, key: nat, hash: Digest, now: Time): (ClaimTable, ClaimResult) {
    if Taken(t, user, key) then (t, Resolve(t.rows[Find(t, user, key)], hash))
    else (ClaimTable(t.rows[t.nextId := NewClaim(user, key, hash, now)], t.nextId + 1), Acquired(t.nextId))
  }

  /** None when the row is gone: updating a missing row fails and rolls the booking back. */
  function MarkCompleted(t: ClaimTable, claimId: nat, booking: nat): Option<ClaimTable> {
    if claimId in t.rows then Some(t.(rows := t.rows[claimId := t.rows[claimId].(status := Completed(booking))]))
    else None
  }

  function Release(t: ClaimTable, claimId: nat): ClaimTable { t.(rows := t.rows - {claimId}) }

  predicate Sweepable(c: Claim, now: Time) {
    (c.status.Completed? && c.expiresAt < now) || (c.status.InProgress? && c.createdAt < now - IDEMPOTENCY_STALE_MS)
  }

  function Cleanup(t: ClaimTable, now: Time): ClaimTable {
    t.(rows := map id | id in t.rows && !Sweepable(t.rows[id], now) :: t.rows[id])
  }

  // ---- quotes

  datatype Quote = Quote(user: UserId, expiresAt: Time, consumed: bool)

  datatype QuoteAnswer = Consumable | QuoteNotFound | QuoteUsed | QuoteExpired

  /** What a booking request finds before it claims its key; nothing is locked. */
  function LoadConsumableQuote(quotes: seq<Quote>, user: UserId, quote: nat, now: Time): QuoteAnswer {
    if quote >= |quotes| || quotes[quote].user != user then QuoteNotFound
    else if quotes[quote].consumed then QuoteUsed
    else if quotes[quote].expiresAt <= now then QuoteExpired
    else Consumable
  }

  /** None when there is no such row. A quote that is consumed already is consumed again. */
  function MarkQuoteConsumed(quotes: seq<Quote>, quote: nat): Option<seq<Quote>> {
    if quote < |quotes| then Some(quotes[quote := quotes[quote].(consumed := true)]) else None
  }

  // ---- workers

  /** `Unanswered`: the booking committed, but its acknowledgement was lost and surfaced as an error. */
  datatype WorkerState = Creating | Created(booking: nat) | Unanswered(booking: nat) | RolledBack | Gone

  /** A request that has found its quote consumable, when `readAt` bookings had committed, and may claim its key. */
  datatype Asker = Asker(user: UserId, key: nat, hash: Digest, readAt: nat, open: bool)

  datatype Worker = Worker(claimId: nat, hash: Digest, readAt: nat, state: WorkerState)

  /** A committed reservation, with the claim and the body it was created from. */
  datatype Booking = Booking(claimId: nat, user: UserId, key: nat, claimedAt: Time, hash: Digest, readAt: nat)

  datatype Sys = Sys(now: Time, quotes: seq<Quote>, claims: ClaimTable, askers: seq<Asker>, workers: seq<Worker>, bookings: seq<Booking>)

  datatype Move =
    | OpenQuote(user: UserId, ttlMs: nat)
    | ReadQuote(user: UserId, key: nat, hash: Digest)
    | Request(a: nat)
    | CommitBooking(i: nat)
    | LoseAnswer(i: nat)
    | FailBooking(i: nat)
    | ReleaseClaim(i: nat)
    | CrashWorker(i: nat)
    | Sweep
    | Tick(elapsed: nat)

  predicate Enabled(s: Sys, m: Move) {
    match m
    case Request(a) => a < |s.askers| && s.askers[a].open
    case CommitBooking(i) => i < |s.workers| && s.workers[i].state == Creating
    case FailBooking(i) => i < |s.workers| && s.workers[i].state == Creating
    case LoseAnswer(i) => i < |s.workers| && s.workers[i].state.Created?
    case ReleaseClaim(i) => i < |s.workers| && (s.workers[i].state == RolledBack || s.workers[i].state.Unanswered?)
    case CrashWorker(i) => i < |s.workers|
    case _ => true
  }

  function SetWorker(s: Sys, i: nat, state: WorkerState): seq<Worker>
    requires i < |s.workers|
  {
    s.workers[i := s.workers[i].(state := state)]
  }

  /** The answer the claim table has for a request. */
  ghost function Answer(s: Sys, a: nat): ClaimResult
    requires a < |s.askers|
  {
    ClaimKey(s.claims, s.askers[a].user, s.askers[a].key, s.askers[a].hash, s.now).1
  }

  ghost function Next(s: Sys, m: Move): Sys
    requires Enabled(s, m)
  {
    match m
    case OpenQuote(user, ttlMs) => s.(quotes := s.quotes + [Quote(user, s.now + ttlMs, false)])
    case ReadQuote(user, key, hash) =>
      if LoadConsumableQuote(s.quotes, user, hash.quote, s.now).Consumable?
      then s.(askers := s.askers + [Asker(user, key, hash, |s.bookings|, true)]) else s
    case Request(a) =>
      var asker := s.askers[a];
      var (claims, result) := ClaimKey(s.claims, asker.user, asker.key, asker.hash, s.now);
      s.(claims := claims, askers := s.askers[a := asker.(open := false)],
         workers := if result.Acquired? then s.workers + [Worker(result.claimId, asker.hash, asker.readAt, Creating)] else s.workers)
    case CommitBooking(i) =>
      var w, b := s.workers[i], |s.bookings|;
      var marked, consumed := MarkCompleted(s.claims, w.claimId, b), MarkQuoteConsumed(s.quotes, w.hash.quote);
      if marked.None? || consumed.None? then s.(workers := SetWorker(s, i, RolledBack))
      else
        var c := s.claims.rows[w.claimId];
        s.(claims := marked.value, quotes := consumed.value, workers := SetWorker(s, i, Created(b)),
           bookings := s.bookings + [Booking(w.claimId, c.user, c.key, c.createdAt, w.hash, w.readAt)])
    case LoseAnswer(i) => s.(workers := SetWorker(s, i, Unanswered(s.workers[i].state.booking)))
    case FailBooking(i) => s.(workers := SetWorker(s, i, RolledBack))
    case ReleaseClaim(i) => s.(claims := Release(s.claims, s.workers[i].claimId), workers := SetWorker(s, i, Gone))
    case CrashWorker(i) => s.(workers := SetWorker(s, i, Gone))
    case Sweep => s.(claims := Cleanup(s.claims, s.now))
    case Tick(elapsed) => s.(now := s.now + elapsed)
  }

  predicate Booked(s: Sys, claimId: nat) {
    exists b | 0 <= b < |s.bookings| :: s.bookings[b].claimId == claimId
  }

  predicate MadeUnder(b: Booking, claimId: nat, c: Claim) {
    b.claimId == claimId && b.user == c.user && b.key == c.key && b.claimedAt == c.createdAt && b.hash == c.hash
  }

  /** Claims are unique, younger than the clock, and completed exactly by the one booking they name. */
  ghost predicate ClaimsOk(s: Sys) {
    && (forall id | id in s.claims.rows ::
          && id < s.claims.nextId
          && s.claims.rows[id].createdAt <= s.now
          && s.claims.rows[id].expiresAt == s.claims.rows[id].createdAt + IDEMPOTENCY_TTL_MS
          && (s.claims.rows[id].status.Completed? ==>
                s.claims.rows[id].status.booking < |s.bookings|
                && MadeUnder(s.bookings[s.claims.rows[id].status.booking], id, s.claims.rows[id]))
          && (s.claims.rows[id].status.InProgress? ==> !Booked(s, id)))
    && (forall a, b | a in s.claims.rows && b in s.claims.rows && Names(s.claims.rows[a], s.claims.rows[b].user, s.claims.rows[b].key) :: a == b)
    && OneBookingPerClaim(s)
  }

  predicate OneBookingPerClaim(s: Sys) {
    && (forall b | 0 <= b < |s.bookings| :: s.bookings[b].claimId < s.claims.nextId)
    && forall b, c | 0 <= b < c < |s.bookings| :: s.bookings[b].claimId != s.bookings[c].claimId
  }

  ghost predicate WorkersOk(s: Sys) {
    && (forall i | 0 <= i < |s.workers| ::
          && s.workers[i].claimId < s.claims.nextId
          && (s.workers[i].claimId in s.claims.rows ==> s.claims.rows[s.workers[i].claimId].hash == s.workers[i].hash)
          && (s.workers[i].state == Creating || s.workers[i].state == RolledBack ==> !Booked(s, s.workers[i].claimId))
          && (s.workers[i].state.Created? || s.workers[i].state.Unanswered? ==>
                s.workers[i].state.booking < |s.bookings| && s.bookings[s.workers[i].state.booking].claimId == s.workers[i].claimId))
    && forall i, j | 0 <= i < j < |s.workers| :: s.workers[i].claimId != s.workers[j].claimId
  }

  /** A reading made before any of the bookings so far consumed the quote. */
  predicate ReadUnused(s: Sys, hash: Digest, readAt: nat) {
    && hash.quote < |s.quotes| && readAt <= |s.bookings|
    && forall b | 0 <= b < readAt :: s.bookings[b].hash.quote != hash.quote
  }

  predicate UsedUp(s: Sys, quote: nat) {
    exists b | 0 <= b < |s.bookings| :: s.bookings[b].hash.quote == quote
  }

  /** Exactly the quotes booked from are consumed, and none was when a request that went on read it. */
  ghost predicate QuotesOk(s: Sys) {
    && (forall a | 0 <= a < |s.askers| :: ReadUnused(s, s.askers[a].hash, s.askers[a].readAt))
    && (forall i | 0 <= i < |s.workers| :: ReadUnused(s, s.workers[i].hash, s.workers[i].readAt))
    && (forall b | 0 <= b < |s.bookings| :: s.bookings[b].readAt <= b && ReadUnused(s, s.bookings[b].hash, s.bookings[b].readAt))
    && forall q | 0 <= q < |s.quotes| :: s.quotes[q].consumed <==> UsedUp(s, q)
  }

  /** A claim outlives its booking by a day. */
  ghost predicate ClaimsOutlive(s: Sys) {
    forall b | 0 <= b < |s.bookings| ::
      s.bookings[b].claimId !in s.claims.rows ==> s.now > s.bookings[b].claimedAt + IDEMPOTENCY_TTL_MS
  }

  /** Another claim of the same key comes more than a day later. */
  ghost predicate ClaimsApart(s: Sys) {
    forall b, id | 0 <= b < |s.bookings| && id in s.claims.rows && id != s.bookings[b].claimId
                   && Names(s.claims.rows[id], s.bookings[b].user, s.bookings[b].key) ::
      s.claims.rows[id].createdAt > s.bookings[b].claimedAt + IDEMPOTENCY_TTL_MS
  }

  /** And so does another booking. */
  predicate BookingsApart(s: Sys) {
    forall b, c | 0 <= b < c < |s.bookings| ::
      s.bookings[b].user == s.bookings[c].user && s.bookings[b].key == s.bookings[c].key ==>
        s.bookings[c].claimedAt > s.bookings[b].claimedAt + IDEMPOTENCY_TTL_MS
  }

  ghost predicate BookingsOk(s: Sys) { ClaimsOutlive(s) && ClaimsApart(s) && BookingsApart(s) }

  /** What holds whatever happens, lost answers included. */
  ghost predicate Sound(s: Sys) { ClaimsOk(s) && WorkersOk(s) && QuotesOk(s) }

  ghost predicate Inv(s: Sys) { Sound(s) && BookingsOk(s) }

  /** A booking whose claim row is still there is the one the row names. */
  lemma BookingOfClaim(s: Sys, b: nat)
    requires ClaimsOk(s) && b < |s.bookings| && s.bookings[b].claimId in s.claims.rows
    ensures s.claims.rows[s.bookings[b].claimId].status == Completed(b)
    ensures MadeUnder(s.bookings[b], s.bookings[b].claimId, s.claims.rows[s.bookings[b].claimId])
  {
    var id := s.bookings[b].claimId;
    if s.claims.rows[id].status.InProgress? {
      assert Booked(s, id);
    }
  }

  // ---- what every move keeps

  lemma RequestKeepsClaims(s: Sys, a: nat)
    requires Sound(s) && Enabled(s, Request(a))
    ensures ClaimsOk(Next(s, Request(a)))
  {
    assert forall id :: Booked(Next(s, Request(a)), id) <==> Booked(s, id);
    assert !Booked(s, s.claims.nextId);
  }

  lemma RequestKeepsWorkers(s: Sys, a: nat)
    requires Sound(s) && Enabled(s, Request(a))
    ensures WorkersOk(Next(s, Request(a)))
  {
    assert forall id :: Booked(Next(s, Request(a)), id) <==> Booked(s, id);
    assert !Booked(s, s.claims.nextId);
  }

  lemma RequestKeepsQuotes(s: Sys, a: nat)
    requires Sound(s) && Enabled(s, Request(a))
    ensures QuotesOk(Next(s, Request(a)))
  {
    assert forall q :: UsedUp(Next(s, Request(a)), q) <==> UsedUp(s, q);
  }

  /** A commit under a claim that is still there books that claim and no other. */
  lemma CommitBooks(s: Sys, i: nat, x: nat)
    requires Enabled(s, CommitBooking(i)) && s.workers[i].hash.quote < |s.quotes|
    ensures var w, s' := s.workers[i], Next(s, CommitBooking(i));
            if w.claimId in s.claims.rows then
              (Booked(s', x) <==> Booked(s, x) || x == w.claimId) && (UsedUp(s', x) <==> UsedUp(s, x) || x == w.hash.quote)
            else s'.bookings == s.bookings && s'.claims == s.claims && s'.quotes == s.quotes
  {
    var w, s' := s.workers[i], Next(s, CommitBooking(i));
    if w.claimId in s.claims.rows {
      assert s'.bookings[|s.bookings|].claimId == w.claimId && s'.bookings[|s.bookings|].hash == w.hash;
      assert forall b | 0 <= b < |s.bookings| :: s'.bookings[b] == s.bookings[b];
    }
  }

  /** A commit adds one booking to a claim that is there, and moves no other row. */
  lemma CommitShape(s: Sys, i: nat)
    requires Enabled(s, CommitBooking(i))
    ensures var id, s' := s.workers[i].claimId, Next(s, CommitBooking(i));
            && s'.now == s.now && s'.claims.rows.Keys == s.claims.rows.Keys
            && (forall x | x in s.claims.rows ::
                  Names(s'.claims.rows[x], s.claims.rows[x].user, s.claims.rows[x].key)
                  && s'.claims.rows[x].createdAt == s.claims.rows[x].createdAt)
            && (s'.bookings == s.bookings
                || (id in s.claims.rows && s'.bookings == s.bookings + [s'.bookings[|s.bookings|]]
                    && s'.bookings[|s.bookings|].claimId == id
                    && Names(s.claims.rows[id], s'.bookings[|s.bookings|].user, s'.bookings[|s.bookings|].key)
                    && s'.bookings[|s.bookings|].claimedAt == s.claims.rows[id].createdAt))
  {}

  lemma CommitKeepsClaims(s: Sys, i: nat)
    requires Sound(s) && Enabled(s, CommitBooking(i))
    ensures ClaimsOk(Next(s, CommitBooking(i)))
  {
    forall x { CommitBooks(s, i, x); }
    assert !Booked(s, s.workers[i].claimId);
    CommitBooksOnce(s, i);
  }

  lemma CommitBooksOnce(s: Sys, i: nat)
    requires Sound(s) && Enabled(s, CommitBooking(i))
    ensures OneBookingPerClaim(Next(s, CommitBooking(i)))
  {
    assert !Booked(s, s.workers[i].claimId);
    assert forall b | 0 <= b < |s.bookings| :: s.bookings[b].claimId != s.workers[i].claimId;
  }

  lemma CommitKeepsWorkers(s: Sys, i: nat)
    requires Sound(s) && Enabled(s, CommitBooking(i))
    ensures WorkersOk(Next(s, CommitBooking(i)))
  {
    forall x { CommitBooks(s, i, x); }
    assert !Booked(s, s.workers[i].claimId);
  }

  lemma CommitKeepsQuotes(s: Sys, i: nat)
    requires Sound(s) && Enabled(s, CommitBooking(i))
    ensures QuotesOk(Next(s, CommitBooking(i)))
  {
    forall x { CommitBooks(s, i, x); }
  }

  predicate NeitherClaimsNorBooks(m: Move) { !m.Request? && !m.CommitBooking? }

  lemma OtherMovesBookNothing(s: Sys, m: Move)
    requires Enabled(s, m) && NeitherClaimsNorBooks(m)
    ensures Next(s, m).bookings == s.bookings
    ensures forall x :: Booked(Next(s, m), x) <==> Booked(s, x)
    ensures forall q :: UsedUp(Next(s, m), q) <==> UsedUp(s, q)
  {}

  lemma OtherMovesKeepClaims(s: Sys, m: Move)
    requires Sound(s) && Enabled(s, m) && NeitherClaimsNorBooks(m)
    ensures ClaimsOk(Next(s, m))
  {
    OtherMovesBookNothing(s, m);
  }

  lemma OtherMovesKeepWorkers(s: Sys, m: Move)
    requires Sound(s) && Enabled(s, m) && NeitherClaimsNorBooks(m)
    ensures WorkersOk(Next(s, m))
  {
    OtherMovesBookNothing(s, m);
  }

  lemma OtherMovesKeepQuotes(s: Sys, m: Move)
    requires Sound(s) && Enabled(s, m) && NeitherClaimsNorBooks(m)
    ensures QuotesOk(Next(s, m))
  {
    OtherMovesBookNothing(s, m);
    assert s.quotes <= Next(s, m).quotes;
    assert !UsedUp(s, |s.quotes|);
  }

  lemma MoveKeepsSound(s: Sys, m: Move)
    requires Sound(s) && Enabled(s, m)
    ensures Sound(Next(s, m))
  {
    match m
    case Request(a) =>
      RequestKeepsClaims(s, a);
      RequestKeepsWorkers(s, a);
      RequestKeepsQuotes(s, a);
    case CommitBooking(i) =>
      CommitKeepsClaims(s, i);
      CommitKeepsWorkers(s, i);
      CommitKeepsQuotes(s, i);
    case _ =>
      OtherMovesKeepClaims(s, m);
      OtherMovesKeepWorkers(s, m);
      OtherMovesKeepQuotes(s, m);
  }

  /** No claim is released that has a booking behind it and is not a day old. */
  predicate SparesBookings(s: Sys, m: Move) {
    m.ReleaseClaim? && m.i < |s.workers| && s.workers[m.i].state.Unanswered? && s.workers[m.i].claimId in s.claims.rows ==>
      s.now > s.claims.rows[s.workers[m.i].claimId].expiresAt
  }

  lemma RequestKeeps(s: Sys, a: nat)
    requires Inv(s) && Enabled(s, Request(a))
    ensures BookingsOk(Next(s, Request(a)))
  {
    var s' := Next(s, Request(a));
    forall b, id | 0 <= b < |s'.bookings| && id in s'.claims.rows && id != s'.bookings[b].claimId
                   && Names(s'.claims.rows[id], s'.bookings[b].user, s'.bookings[b].key)
      ensures s'.claims.rows[id].createdAt > s'.bookings[b].claimedAt + IDEMPOTENCY_TTL_MS
    {
      if id !in s.claims.rows && s.bookings[b].claimId in s.claims.rows {
        BookingOfClaim(s, b);
      }
    }
  }

  lemma CommitKeepsClaimsApart(s: Sys, i: nat)
    requires Inv(s) && Enabled(s, CommitBooking(i))
    ensures ClaimsApart(Next(s, CommitBooking(i)))
  {
    CommitShape(s, i);
  }

  lemma CommitKeepsBookingsApart(s: Sys, i: nat)
    requires Inv(s) && Enabled(s, CommitBooking(i))
    ensures BookingsApart(Next(s, CommitBooking(i)))
  {
    CommitShape(s, i);
    assert !Booked(s, s.workers[i].claimId);
    assert forall b | 0 <= b < |s.bookings| :: s.bookings[b].claimId != s.workers[i].claimId;
  }

  lemma CommitKeeps(s: Sys, i: nat)
    requires Inv(s) && Enabled(s, CommitBooking(i))
    ensures BookingsOk(Next(s, CommitBooking(i)))
  {
    CommitKeepsClaimsApart(s, i);
    CommitKeepsBookingsApart(s, i);
    CommitShape(s, i);
  }

  lemma SweepKeeps(s: Sys)
    requires Inv(s)
    ensures BookingsOk(Next(s, Sweep))
  {
    var s' := Next(s, Sweep);
    forall b | 0 <= b < |s.bookings| && s.bookings[b].claimId !in s'.claims.rows
      ensures s.now > s.bookings[b].claimedAt + IDEMPOTENCY_TTL_MS
    {
      if s.bookings[b].claimId in s.claims.rows {
        BookingOfClaim(s, b);
      }
    }
  }

  lemma ReleaseKeeps(s: Sys, i: nat)
    requires Inv(s) && Enabled(s, ReleaseClaim(i)) && SparesBookings(s, ReleaseClaim(i))
    ensures BookingsOk(Next(s, ReleaseClaim(i)))
  {
    var id, s' := s.workers[i].claimId, Next(s, ReleaseClaim(i));
    forall b | 0 <= b < |s.bookings| && s.bookings[b].claimId !in s'.claims.rows
      ensures s.now > s.bookings[b].claimedAt + IDEMPOTENCY_TTL_MS
    {
      if s.bookings[b].claimId in s.claims.rows {
        assert s.bookings[b].claimId == id && Booked(s, id);
        BookingOfClaim(s, b);
      }
    }
  }

  /** Releasing a younger claim with a booking behind it breaks the agreement of claims and bookings. */
  lemma ReleaseBreaks(s: Sys, i: nat)
    requires Inv(s) && Enabled(s, ReleaseClaim(i)) && !SparesBookings(s, ReleaseClaim(i))
    ensures !Inv(Next(s, ReleaseClaim(i)))
  {
    var b := s.workers[i].state.booking;
    BookingOfClaim(s, b);
    assert s.bookings[b].claimId !in Next(s, ReleaseClaim(i)).claims.rows;
  }

  /** A move keeps claims and bookings in agreement exactly when it releases no young claim with a booking behind it. */
  lemma MoveKeepsInv(s: Sys, m: Move)
    requires Inv(s) && Enabled(s, m)
    ensures Inv(Next(s, m)) <==> SparesBookings(s, m)
  {
    MoveKeepsSound(s, m);
    match m
    case Request(a) => RequestKeeps(s, a);
    case CommitBooking(i) => CommitKeeps(s, i);
    case Sweep => SweepKeeps(s);
    case ReleaseClaim(i) =>
      if SparesBookings(s, m) {
        ReleaseKeeps(s, i);
      } else {
        ReleaseBreaks(s, i);
      }
    case _ =>
  }

  // ---- whole histories

  /** The state after the moves; None when one of them was not enabled. */
  ghost function From(s: Sys, moves: seq<Move>): Option<Sys> {
    if |moves| == 0 then Some(s)
    else
      var before := From(s, moves[..|moves| - 1]);
      if before.Some? && Enabled(before.value, moves[|moves| - 1])
      then Some(Next(before.value, moves[|moves| - 1])) else None
  }

  ghost function Play(now: Time, moves: seq<Move>): Option<Sys> {
    From(Sys(now, [], ClaimTable(map[], 0), [], [], []), moves)
  }

  lemma {:induction false} PlayIsSound(now: Time, moves: seq<Move>)
    requires Play(now, moves).Some?
    ensures Sound(Play(now, moves).value)
  {
    if |moves| > 0 {
      PlayIsSound(now, moves[..|moves| - 1]);
      MoveKeepsSound(Play(now, moves[..|moves| - 1]).value, moves[|moves| - 1]);
    }
  }

  ghost predicate SparingPlay(now: Time, moves: seq<Move>) {
    |moves| == 0
    || (SparingPlay(now, moves[..|moves| - 1])
        && var before := Play(now, moves[..|moves| - 1]);
           before.Some? ==> SparesBookings(before.value, moves[|moves| - 1]))
  }

  /**
   * Over any requests, crashes, failures and sweeps, and as long as no lost acknowledgement frees a key
   * that was booked under: a claim row yields at most one booking, and two bookings under one key come
   * from claims more than a day apart.
   */
  lemma {:induction false} OneBookingPerKeyAndDay(now: Time, moves: seq<Move>)
    requires Play(now, moves).Some? && SparingPlay(now, moves)
    ensures Inv(Play(now, moves).value)
    ensures var bookings := Play(now, moves).value.bookings;
            forall b, c | 0 <= b < c < |bookings| ::
              && bookings[b].claimId != bookings[c].claimId
              && (bookings[b].user == bookings[c].user && bookings[b].key == bookings[c].key ==>
                    bookings[c].claimedAt - bookings[b].claimedAt > IDEMPOTENCY_TTL_MS)
  {
    if |moves| > 0 {
      OneBookingPerKeyAndDay(now, moves[..|moves| - 1]);
      MoveKeepsInv(Play(now, moves[..|moves| - 1]).value, moves[|moves| - 1]);
    }
  }

  lemma FromSnoc(s: Sys, moves: seq<Move>, t: Sys, m: Move)
    requires From(s, moves) == Some(t) && Enabled(t, m)
    ensures From(s, moves + [m]) == Some(Next(t, m))
  {
    assert (moves + [m])[..|moves|] == moves;
  }

  lemma {:induction false} FromAppend(s: Sys, moves: seq<Move>, t: Sys, later: seq<Move>)
    requires From(s, moves) == Some(t)
    ensures From(s, moves + later) == From(t, later)
  {
    if |later| == 0 {
      assert moves + later == moves;
    } else {
      FromAppend(s, moves, t, later[..|later| - 1]);
      assert (moves + later)[..|moves + later| - 1] == moves + later[..|later| - 1];
    }
  }

  // ---- repeated requests

  /** The booking was made for just this request. */
  predicate MadeFor(b: Booking, user: UserId, key: nat, hash: Digest) {
    b.user == user && b.key == key && b.hash == hash
  }

  /** Once a booking has committed, every request with its quote is refused before it claims anything. */
  lemma LateRepeatIsRefused(s: Sys, user: UserId, key: nat, hash: Digest, b: nat)
    requires Sound(s) && b < |s.bookings| && s.bookings[b].hash.quote == hash.quote
    ensures !LoadConsumableQuote(s.quotes, user, hash.quote, s.now).Consumable?
    ensures Next(s, ReadQuote(user, key, hash)) == s
  {
    assert UsedUp(s, hash.quote);
  }

  /**
   * A request that repeats one already booked, and got past its quote, had read it before that booking
   * committed. It is answered with that booking exactly when the booking's claim is still there, and then
   * changes nothing.
   */
  lemma RetryReplaysItsBooking(s: Sys, a: nat, b: nat)
    requires Sound(s) && Enabled(s, Request(a)) && b < |s.bookings|
    requires MadeFor(s.bookings[b], s.askers[a].user, s.askers[a].key, s.askers[a].hash)
    ensures s.askers[a].readAt <= b
    ensures Answer(s, a) == Replay(b) <==> s.bookings[b].claimId in s.claims.rows
    ensures Answer(s, a) == Replay(b) ==> Next(s, Request(a)) == s.(askers := s.askers[a := s.askers[a].(open := false)])
  {
    var asker := s.askers[a];
    if s.bookings[b].claimId in s.claims.rows {
      BookingOfClaim(s, b);
      assert Names(s.claims.rows[s.bookings[b].claimId], asker.user, asker.key);
    }
  }

  /** Without its own turn a request stays as it was. */
  lemma {:induction false} AskersLast(s: Sys, moves: seq<Move>, a: nat)
    requires a < |s.askers| && From(s, moves).Some? && Request(a) !in moves
    ensures a < |From(s, moves).value.askers| && From(s, moves).value.askers[a] == s.askers[a]
  {
    if |moves| > 0 {
      AskersLast(s, moves[..|moves| - 1], a);
    }
  }

  /**
   * A request that repeats what booking `b` was made for, its quote read at `r` and its turn to claim coming
   * at `s`: it goes on exactly when the quote can still be used at `r`, which is before `b` commits; it
   * is then answered with `b` exactly when the claim of `b` is there at `s`.
   */
  lemma RepeatReplaysExactly(now: Time, moves: seq<Move>, later: seq<Move>, user: UserId, key: nat, hash: Digest, b: nat)
    requires Play(now, moves).Some? && Play(now, moves + [ReadQuote(user, key, hash)] + later).Some?
    requires Request(|Play(now, moves).value.askers|) !in later
    requires var s := Play(now, moves + [ReadQuote(user, key, hash)] + later).value;
             b < |s.bookings| && MadeFor(s.bookings[b], user, key, hash)
    ensures var r, s := Play(now, moves).value, Play(now, moves + [ReadQuote(user, key, hash)] + later).value;
            var a := |r.askers|;
            if LoadConsumableQuote(r.quotes, user, hash.quote, r.now).Consumable? then
              && |r.bookings| <= b && Enabled(s, Request(a)) && s.askers[a] == Asker(user, key, hash, |r.bookings|, true)
              && (Answer(s, a) == Replay(b) <==> s.bookings[b].claimId in s.claims.rows)
            else Next(r, ReadQuote(user, key, hash)) == r
  {
    var read := ReadQuote(user, key, hash);
    var r, s := Play(now, moves).value, Play(now, moves + [read] + later).value;
    FromSnoc(Sys(now, [], ClaimTable(map[], 0), [], [], []), moves, r, read);
    FromAppend(Sys(now, [], ClaimTable(map[], 0), [], [], []), moves + [read], Next(r, read), later);
    PlayIsSound(now, moves + [read] + later);
    if LoadConsumableQuote(r.quotes, user, hash.quote, r.now).Consumable? {
      AskersLast(Next(r, read), later, |r.askers|);
      RetryReplaysItsBooking(s, |r.askers|, b);
    }
  }

  // ---- one quote, several bookings

  /** Of two bookings from one quote, the later one's request had read the quote before the earlier one committed. */
  lemma QuoteBooksAgainOnlyIfReadBefore(now: Time, moves: seq<Move>, b: nat, c: nat)
    requires Play(now, moves).Some?
    requires var s := Play(now, moves).value; b < c < |s.bookings| && s.bookings[b].hash.quote == s.bookings[c].hash.quote
    ensures Play(now, moves).value.bookings[c].readAt <= b
  {
    PlayIsSound(now, moves);
  }

  /** No quote has been booked from twice. */
  ghost predicate QuotesSingle(s: Sys) {
    forall b, c | 0 <= b < c < |s.bookings| :: s.bookings[b].hash.quote != s.bookings[c].hash.quote
  }

  /** A booking commits only if its quote is still unused: what the service does not look at again. */
  predicate SparesQuotes(s: Sys, m: Move) {
    m.CommitBooking? && m.i < |s.workers| && s.workers[m.i].claimId in s.claims.rows && s.workers[m.i].hash.quote < |s.quotes| ==>
      !s.quotes[s.workers[m.i].hash.quote].consumed
  }

  /** Each quote goes on yielding one booking at most exactly when no booking commits from a used one. */
  lemma MoveKeepsQuotesSingle(s: Sys, m: Move)
    requires Sound(s) && QuotesSingle(s) && Enabled(s, m)
    ensures QuotesSingle(Next(s, m)) <==> SparesQuotes(s, m)
  {
    if m.CommitBooking? && s.workers[m.i].claimId in s.claims.rows {
      var quote, s' := s.workers[m.i].hash.quote, Next(s, m);
      assert s'.bookings[|s.bookings|].hash.quote == quote;
      assert forall b | 0 <= b < |s.bookings| :: s'.bookings[b] == s.bookings[b];
      if s.quotes[quote].consumed {
        var b :| 0 <= b < |s.bookings| && s.bookings[b].hash.quote == quote;
        assert s'.bookings[b].hash.quote == s'.bookings[|s.bookings|].hash.quote;
      }
    }
  }

  // ---- second bookings from every state

  /** A quote the guest can use, and a key nobody has claimed. */
  ghost predicate CanBook(s: Sys, user: UserId, key: nat, hash: Digest) {
    LoadConsumableQuote(s.quotes, user, hash.quote, s.now).Consumable? && !Taken(s.claims, user, key)
  }

  lemma FromTwo(s: Sys, m: Move, t: Sys, n: Move)
    requires Enabled(s, m) && Next(s, m) == t && Enabled(t, n)
    ensures From(s, [m, n]) == Some(Next(t, n))
  {
    assert From(s, []) == Some(s) && From(s, [m]) == Some(t);
    assert [m, n][..1] == [m];
  }

  /** The system after a request has claimed a free key. */
  ghost function Claimed(s: Sys, a: nat): Sys
    requires Enabled(s, Request(a))
  {
    var asker, id := s.askers[a], s.claims.nextId;
    s.(claims := ClaimTable(s.claims.rows[id := NewClaim(asker.user, asker.key, asker.hash, s.now)], id + 1),
       askers := s.askers[a := asker.(open := false)],
       workers := s.workers + [Worker(id, asker.hash, asker.readAt, Creating)])
  }

  /** And after it has committed its booking under that claim. */
  ghost function BookedBy(s: Sys, a: nat): Sys
    requires Enabled(s, Request(a)) && s.askers[a].hash.quote < |s.quotes|
  {
    var asker, id, b, q := s.askers[a], s.claims.nextId, |s.bookings|, s.askers[a].hash.quote;
    s.(claims := ClaimTable(s.claims.rows[id := NewClaim(asker.user, asker.key, asker.hash, s.now).(status := Completed(b))], id + 1),
       askers := s.askers[a := asker.(open := false)],
       quotes := s.quotes[q := s.quotes[q].(consumed := true)],
       workers := s.workers + [Worker(id, asker.hash, asker.readAt, Created(b))],
       bookings := s.bookings + [Booking(id, asker.user, asker.key, s.now, asker.hash, asker.readAt)])
  }

  lemma ClaimedCommits(s: Sys, a: nat)
    requires Sound(s) && Enabled(s, Request(a)) && s.askers[a].hash.quote < |s.quotes|
    ensures Enabled(Claimed(s, a), CommitBooking(|s.workers|))
    ensures Next(Claimed(s, a), CommitBooking(|s.workers|)) == BookedBy(s, a)
  {
    var claimed, asker, id, w := Claimed(s, a), s.askers[a], s.claims.nextId, |s.workers|;
    assert SetWorker(claimed, w, Created(|s.bookings|)) == s.workers + [Worker(id, asker.hash, asker.readAt, Created(|s.bookings|))];
    assert MarkCompleted(claimed.claims, id, |s.bookings|).value == BookedBy(s, a).claims;
  }

  /** A request whose key is free claims it and commits. */
  lemma ClaimsAndCommits(s: Sys, a: nat)
    requires Sound(s) && Enabled(s, Request(a)) && !Taken(s.claims, s.askers[a].user, s.askers[a].key)
    ensures s.askers[a].hash.quote < |s.quotes|
    ensures From(s, [Request(a), CommitBooking(|s.workers|)]) == Some(BookedBy(s, a)) && Sound(BookedBy(s, a))
  {
    assert Next(s, Request(a)) == Claimed(s, a);
    MoveKeepsSound(s, Request(a));
    ClaimedCommits(s, a);
    MoveKeepsSound(Claimed(s, a), CommitBooking(|s.workers|));
    FromTwo(s, Request(a), Claimed(s, a), CommitBooking(|s.workers|));
  }

  /** And after the answer was lost, and the service took the claim for that of a failed booking. */
  ghost function FreedBy(s: Sys, a: nat): Sys
    requires Enabled(s, Request(a)) && s.askers[a].hash.quote < |s.quotes|
  {
    var asker, id := s.askers[a], s.claims.nextId;
    BookedBy(s, a).(claims := ClaimTable(s.claims.rows, id + 1),
                    workers := s.workers + [Worker(id, asker.hash, asker.readAt, Gone)])
  }

  lemma LosesAndFrees(s: Sys, a: nat)
    requires Sound(s) && Enabled(s, Request(a)) && s.askers[a].hash.quote < |s.quotes| && Sound(BookedBy(s, a))
    ensures From(BookedBy(s, a), [LoseAnswer(|s.workers|), ReleaseClaim(|s.workers|)]) == Some(FreedBy(s, a)) && Sound(FreedBy(s, a))
  {
    var w, booked, asker := |s.workers|, BookedBy(s, a), s.askers[a];
    var lost := Next(booked, LoseAnswer(w));
    assert lost.workers == s.workers + [Worker(s.claims.nextId, asker.hash, asker.readAt, Unanswered(|s.bookings|))];
    MoveKeepsSound(booked, LoseAnswer(w));
    MoveKeepsSound(lost, ReleaseClaim(w));
    assert Next(lost, ReleaseClaim(w)).claims.rows == s.claims.rows;
    assert Next(lost, ReleaseClaim(w)).workers == FreedBy(s, a).workers;
    FromTwo(booked, LoseAnswer(w), lost, ReleaseClaim(w));
  }

  /** A request books, its answer is lost, and the key is free again. */
  function BookAndLose(a: nat, w: nat): seq<Move> {
    [Request(a), CommitBooking(w)] + [LoseAnswer(w), ReleaseClaim(w)]
  }

  lemma BooksAndFrees(s: Sys, a: nat)
    requires Sound(s) && Enabled(s, Request(a)) && !Taken(s.claims, s.askers[a].user, s.askers[a].key)
    ensures s.askers[a].hash.quote < |s.quotes|
    ensures From(s, BookAndLose(a, |s.workers|)) == Some(FreedBy(s, a)) && Sound(FreedBy(s, a))
  {
    ClaimsAndCommits(s, a);
    LosesAndFrees(s, a);
    FromAppend(s, [Request(a), CommitBooking(|s.workers|)], BookedBy(s, a), [LoseAnswer(|s.workers|), ReleaseClaim(|s.workers|)]);
  }

  ghost function Asking(s: Sys, user: UserId, key: nat, hash: Digest): Sys {
    s.(askers := s.askers + [Asker(user, key, hash, |s.bookings|, true)])
  }

  lemma ReadsQuote(s: Sys, user: UserId, key: nat, hash: Digest)
    requires Sound(s) && LoadConsumableQuote(s.quotes, user, hash.quote, s.now).Consumable?
    ensures From(s, [ReadQuote(user, key, hash)]) == Some(Asking(s, user, key, hash)) && Sound(Asking(s, user, key, hash))
  {
    MoveKeepsSound(s, ReadQuote(user, key, hash));
    assert From(s, []) == Some(s);
  }

  lemma BothReadTheQuote(s: Sys, user: UserId, key: nat, other: nat, hash: Digest)
    requires Sound(s) && LoadConsumableQuote(s.quotes, user, hash.quote, s.now).Consumable?
    ensures var t := Asking(Asking(s, user, key, hash), user, other, hash);
            From(s, [ReadQuote(user, key, hash), ReadQuote(user, other, hash)]) == Some(t) && Sound(t)
  {
    ReadsQuote(s, user, key, hash);
    ReadsQuote(Asking(s, user, key, hash), user, other, hash);
    FromTwo(s, ReadQuote(user, key, hash), Asking(s, user, key, hash), ReadQuote(user, other, hash));
  }

  /** A history goes on with a request that books. */
  lemma SecondBooking(s: Sys, moves: seq<Move>, t: Sys, a: nat)
    requires From(s, moves) == Some(t) && Sound(t) && Enabled(t, Request(a)) && !Taken(t.claims, t.askers[a].user, t.askers[a].key)
    ensures var end, asker := From(s, moves + [Request(a), CommitBooking(|t.workers|)]), t.askers[a];
            && end.Some?
            && end.value.bookings == t.bookings + [Booking(t.claims.nextId, asker.user, asker.key, t.now, asker.hash, asker.readAt)]
  {
    ClaimsAndCommits(t, a);
    FromAppend(s, moves, t, [Request(a), CommitBooking(|t.workers|)]);
  }

  /** Both requests read the quote; the first books, loses its answer and gives the key back; the second books. */
  function LoseThenRetry(user: UserId, key: nat, hash: Digest, a: nat, w: nat): seq<Move> {
    [ReadQuote(user, key, hash), ReadQuote(user, key, hash)] + BookAndLose(a, w) + [Request(a + 1), CommitBooking(w + 1)]
  }

  /** With one request booked and freed and another waiting, both with their quote read before. */
  lemma RepeatWaits(s: Sys, user: UserId, key: nat, hash: Digest)
    requires Sound(s) && CanBook(s, user, key, hash)
    ensures var a, w := |s.askers|, |s.workers|;
            var t := FreedBy(Asking(Asking(s, user, key, hash), user, key, hash), a);
            && From(s, [ReadQuote(user, key, hash), ReadQuote(user, key, hash)] + BookAndLose(a, w)) == Some(t) && Sound(t)
            && Enabled(t, Request(a + 1)) && t.askers[a + 1] == Asker(user, key, hash, |s.bookings|, true) && !Taken(t.claims, user, key)
            && t.bookings == s.bookings + [Booking(s.claims.nextId, user, key, s.now, hash, |s.bookings|)]
            && |t.workers| == w + 1 && t.now == s.now
  {
    var read := Asking(Asking(s, user, key, hash), user, key, hash);
    BothReadTheQuote(s, user, key, key, hash);
    BooksAndFrees(read, |s.askers|);
    FromAppend(s, [ReadQuote(user, key, hash), ReadQuote(user, key, hash)], read, BookAndLose(|s.askers|, |s.workers|));
  }

  /**
   * From every state in which a guest can book: a repeated request that was past its quote check when the
   * first one committed books a second time, if the answer to the first is lost.
   */
  lemma LostAnswerBooksTwice(s: Sys, user: UserId, key: nat, hash: Digest)
    requires Sound(s) && CanBook(s, user, key, hash)
    ensures var end := From(s, LoseThenRetry(user, key, hash, |s.askers|, |s.workers|));
            && end.Some? && |end.value.bookings| == |s.bookings| + 2 && s.bookings <= end.value.bookings
            && MadeFor(end.value.bookings[|s.bookings|], user, key, hash)
            && MadeFor(end.value.bookings[|s.bookings| + 1], user, key, hash)
            && end.value.bookings[|s.bookings|].claimedAt == end.value.bookings[|s.bookings| + 1].claimedAt
  {
    var a, w := |s.askers|, |s.workers|;
    var begun := [ReadQuote(user, key, hash), ReadQuote(user, key, hash)] + BookAndLose(a, w);
    RepeatWaits(s, user, key, hash);
    SecondBooking(s, begun, From(s, begun).value, a + 1);
  }

  function LoseThenQuoteAnew(user: UserId, key: nat, hash: Digest, other: Digest, a: nat, w: nat): seq<Move> {
    [ReadQuote(user, key, hash)] + BookAndLose(a, w) + [ReadQuote(user, key, other)] + [Request(a + 1), CommitBooking(w + 1)]
  }

  /** A history goes on with the reading of another quote, and the booking made from it. */
  lemma QuotesAndBooks(s: Sys, moves: seq<Move>, t: Sys, user: UserId, key: nat, hash: Digest)
    requires From(s, moves) == Some(t) && Sound(t) && CanBook(t, user, key, hash)
    ensures var end := From(s, moves + [ReadQuote(user, key, hash)] + [Request(|t.askers|), CommitBooking(|t.workers|)]);
            && end.Some?
            && end.value.bookings == t.bookings + [Booking(t.claims.nextId, user, key, t.now, hash, |t.bookings|)]
  {
    ReadsQuote(t, user, key, hash);
    FromAppend(s, moves, t, [ReadQuote(user, key, hash)]);
    SecondBooking(s, moves + [ReadQuote(user, key, hash)], Asking(t, user, key, hash), |t.askers|);
  }

  /** The history in which the first request books and loses its answer. */
  lemma FirstIsLost(s: Sys, user: UserId, key: nat, hash: Digest) returns (begun: seq<Move>, t: Sys)
    requires Sound(s) && CanBook(s, user, key, hash)
    ensures begun == [ReadQuote(user, key, hash)] + BookAndLose(|s.askers|, |s.workers|)
    ensures From(s, begun) == Some(t) && Sound(t)
    ensures t.quotes == s.quotes[hash.quote := s.quotes[hash.quote].(consumed := true)] && t.claims.rows == s.claims.rows
    ensures t.bookings == s.bookings + [Booking(s.claims.nextId, user, key, s.now, hash, |s.bookings|)]
    ensures |t.workers| == |s.workers| + 1 && |t.askers| == |s.askers| + 1 && t.now == s.now
  {
    begun := [ReadQuote(user, key, hash)] + BookAndLose(|s.askers|, |s.workers|);
    t := FreedBy(Asking(s, user, key, hash), |s.askers|);
    ReadsQuote(s, user, key, hash);
    BooksAndFrees(Asking(s, user, key, hash), |s.askers|);
    FromAppend(s, [ReadQuote(user, key, hash)], Asking(s, user, key, hash), BookAndLose(|s.askers|, |s.workers|));
  }

  /** A request that comes later books under the freed key too, with another quote. */
  lemma FreedKeyBooksAnew(s: Sys, user: UserId, key: nat, hash: Digest, other: Digest)
    requires Sound(s) && CanBook(s, user, key, hash) && CanBook(s, user, key, other) && hash.quote != other.quote
    ensures var end := From(s, LoseThenQuoteAnew(user, key, hash, other, |s.askers|, |s.workers|));
            && end.Some? && |end.value.bookings| == |s.bookings| + 2 && s.bookings <= end.value.bookings
            && MadeFor(end.value.bookings[|s.bookings|], user, key, hash)
            && MadeFor(end.value.bookings[|s.bookings| + 1], user, key, other)
            && end.value.bookings[|s.bookings|].claimedAt == end.value.bookings[|s.bookings| + 1].claimedAt
  {
    var begun, t := FirstIsLost(s, user, key, hash);
    QuotesAndBooks(s, begun, t, user, key, other);
  }

  /** Two requests under two keys read one quote, and both book from it. */
  lemma QuoteBooksTwice(s: Sys, user: UserId, key: nat, other: nat, hash: Digest)
    requires Sound(s) && CanBook(s, user, key, hash) && CanBook(s, user, other, hash) && key != other
    ensures var a, w := |s.askers|, |s.workers|;
            var end := From(s, [ReadQuote(user, key, hash), ReadQuote(user, other, hash)] + [Request(a), CommitBooking(w)]
                               + [Request(a + 1), CommitBooking(w + 1)]);
            && end.Some? && |end.value.bookings| == |s.bookings| + 2
            && MadeFor(end.value.bookings[|s.bookings|], user, key, hash)
            && MadeFor(end.value.bookings[|s.bookings| + 1], user, other, hash)
  {
    var a, w := |s.askers|, |s.workers|;
    var read := Asking(Asking(s, user, key, hash), user, other, hash);
    var asks := [ReadQuote(user, key, hash), ReadQuote(user, other, hash)];
    BothReadTheQuote(s, user, key, other, hash);
    ClaimsAndCommits(read, a);
    FromAppend(s, asks, read, [Request(a), CommitBooking(w)]);
    assert !Taken(BookedBy(read, a).claims, user, other);
    SecondBooking(s, asks + [Request(a), CommitBooking(w)], BookedBy(read, a), a + 1);
  }

  // ---- swept claims

  /** A claim row that is gone never comes back: ids are not reused. */
  lemma GoneClaimStaysGone(s: Sys, m: Move, claimId: nat)
    requires Enabled(s, m) && claimId < s.claims.nextId && claimId !in s.claims.rows
    ensures claimId !in Next(s, m).claims.rows && claimId < Next(s, m).claims.nextId
  {}

  /** A worker whose claim was swept can neither commit a booking nor take its successor's claim away. */
  lemma SweptWorkerIsHarmless(s: Sys, i: nat)
    requires Inv(s) && Enabled(s, CommitBooking(i)) && s.workers[i].claimId !in s.claims.rows
    ensures var rolled := Next(s, CommitBooking(i));
            && rolled.bookings == s.bookings && rolled.claims == s.claims
            && Enabled(rolled, ReleaseClaim(i))
            && Next(rolled, ReleaseClaim(i)).claims == s.claims
            && Next(rolled, ReleaseClaim(i)).bookings == s.bookings
  {
    assert s.claims.rows - {s.workers[i].claimId} == s.claims.rows;
  }

  /**
   * Once its claim is swept, a worker is out of it however the history goes on: its claim stays gone, no
   * booking is made under it, and whatever the worker still does leaves claims and bookings as they are.
   */
  lemma {:induction false} SweptForGood(now: Time, moves: seq<Move>, later: seq<Move>, i: nat)
    requires Play(now, moves).Some? && Play(now, moves + later).Some?
    requires var s := Play(now, moves).value;
             i < |s.workers| && s.workers[i].claimId < s.claims.nextId && s.workers[i].claimId !in s.claims.rows
    ensures var s, s' := Play(now, moves).value, Play(now, moves + later).value;
            && i < |s'.workers| && s'.workers[i].claimId == s.workers[i].claimId
            && s.workers[i].claimId < s'.claims.nextId && s.workers[i].claimId !in s'.claims.rows
            && s.bookings <= s'.bookings
            && forall b | |s.bookings| <= b < |s'.bookings| :: s'.bookings[b].claimId != s.workers[i].claimId
    ensures var s' := Play(now, moves + later).value;
            forall m | m in {CommitBooking(i), ReleaseClaim(i), FailBooking(i), LoseAnswer(i), CrashWorker(i)} && Enabled(s', m) ::
              Next(s', m).bookings == s'.bookings && Next(s', m).claims == s'.claims
  {
    if |later| == 0 {
      assert moves + later == moves;
    } else {
      var front, last := later[..|later| - 1], later[|later| - 1];
      assert (moves + later)[..|moves + later| - 1] == moves + front;
      SweptForGood(now, moves, front, i);
      var before := Play(now, moves + front).value;
      GoneClaimStaysGone(before, last, before.workers[i].claimId);
    }
    var s' := Play(now, moves + later).value;
    forall m | m in {CommitBooking(i), ReleaseClaim(i), FailBooking(i), LoseAnswer(i), CrashWorker(i)} && Enabled(s', m)
      ensures Next(s', m).bookings == s'.bookings && Next(s', m).claims == s'.claims {}
  }

  /** Releasing after a rollback never frees a key that has a booking behind its claim. */
  lemma ReleaseSparesCompletedClaims(s: Sys, i: nat, b: nat)
    requires Inv(s) && i < |s.workers| && s.workers[i].state == RolledBack
    requires b < |s.bookings| && s.bookings[b].claimId in s.claims.rows
    ensures s.bookings[b].claimId in Next(s, ReleaseClaim(i)).claims.rows
    ensures Next(s, ReleaseClaim(i)).claims.rows[s.bookings[b].claimId].status == Completed(b)
  {
    BookingOfClaim(s, b);
  }
}
