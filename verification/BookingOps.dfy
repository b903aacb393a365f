/** BookingsService: booking transactions, written step by step with their rollbacks. */
module BookingOps {
  import opened Basics
  import opened Lifecycle
  import opened Tables
  import opened Inventory
  import opened Transactions
  import opened Storage
  import opened InventoryOps
  import opened CoinOps
  import opened IdempotencyOps
  import opened StaleWrites

  const CREATE_ATTEMPTS: nat := 3

  datatype CreateError =
    | QuoteRefused(why: Idempotency.QuoteAnswer)
    | Refused(error: TxError)
    | ReservationNumberClash
    | KeyUsedDifferently
    | StillProcessing

  datatype BookingReply = Booked(id: nat) | Replayed(id: nat) | NotBooked(why: CreateError)

  /** The tables as other transactions have left them between the look at the quote and the claim of the key. */
  datatype Gap = Gap(tables: Db, quotes: seq<Idempotency.Quote>, claims: Idempotency.ClaimTable)

  class BookingsService {
    const cfg: Config
    const db: Database
    const inventory: BookingInventoryService
    const alterCash: AlterCashService
    const idempotency: BookingIdempotencyService

    constructor (cfg: Config, db: Database)
      ensures this.cfg == cfg && this.db == db && Wired()
    {
      this.cfg, this.db := cfg, db;
      inventory := new BookingInventoryService(db);
      alterCash := new AlterCashService(db);
      idempotency := new BookingIdempotencyService(db);
    }

    ghost predicate Wired() {
      inventory.db == db && alterCash.db == db && idempotency.db == db
    }

    // ---- creation

    /** What one booking transaction does to the tables, its quote and its claim: all of it or nothing. */
    ghost predicate CreatesOrRollsBack(before: Gap, req: BookingRequest, claimId: nat, quote: nat, clash: bool, after: Gap, r: BookingReply) {
      var spec := Transactions.CreateBooking(cfg, before.tables, req);
      var marked := Idempotency.MarkCompleted(before.claims, claimId, |before.tables.reservations|);
      var consumed := Idempotency.MarkQuoteConsumed(before.quotes, quote);
      if spec.Committed? && marked.Some? && consumed.Some? && !clash then
        r == Booked(|before.tables.reservations|) && after == Gap(spec.db, consumed.value, marked.value)
      else
        && r.NotBooked? && after == before
        && (r.why == ReservationNumberClash ==> clash)
        && (r.why.Refused? || r.why == ReservationNumberClash)
        && (r.why.Refused? && marked.Some? && consumed.Some? ==> spec == RolledBack(r.why.error))
    }

    ghost function Everything(): Gap
      reads db
    {
      Gap(db.Snapshot(), db.quotes, db.claims)
    }

    /** The reservation row and its hold rows. */
    method InsertBooking(req: BookingRequest) returns (id: nat)
      modifies db`reservations, db`holds
      ensures id == |old(db.reservations)|
      ensures db.reservations == old(db.reservations) + [NewReservation(cfg, req, db.now)]
      ensures db.holds == old(db.holds) + BuildHoldRows(id, req.item, db.now + cfg.holdTtlMs)
    {
      id := |db.reservations|;
      var holdExpiresAt := db.now + cfg.holdTtlMs;
      db.reservations := db.reservations + [NewReservation(cfg, req, db.now)];
      db.holds := db.holds + BuildHoldRows(id, req.item, holdExpiresAt);
    }

    /** Admission: nights locked and checked under the clock reading of the transaction. */
    method Admit(req: BookingRequest) returns (refusal: Option<TxError>)
      requires Wired()
      ensures refusal.None? <==>
                && req.item.quantity >= 1 && req.item.checkOut > req.item.checkIn && req.user in db.balances
                && CheckAvailability(db.Snapshot(), req.item.roomType, EachNight(req.item.checkIn, req.item.checkOut),
                                     req.item.quantity, db.now).Available?
      ensures refusal.Some? ==> Transactions.CreateBooking(cfg, db.Snapshot(), req) == RolledBack(refusal.value)
    {
      var item := req.item;
      if item.quantity < 1 || item.checkOut <= item.checkIn { return Some(BadRequest); }
      if req.user !in db.balances { return Some(NotFound); }
      var nights := CollectNights(item.checkIn, item.checkOut);
      var free := inventory.LockAndAssertAvailable(item.roomType, nights, item.quantity, db.now);
      if !free.Available? { return Some(Conflict); }
      return None;
    }

    /** `clash` says that the generated reservation number is taken, which fails the insert. */
    method CreateInTransaction(req: BookingRequest, claimId: nat, quote: nat, clash: bool) returns (r: BookingReply)
      requires Wired()
      modifies db
      ensures CreatesOrRollsBack(old(Everything()), req, claimId, quote, clash, Everything(), r)
      ensures db.events == old(db.events)
      ensures clash ==> r == NotBooked(ReservationNumberClash) || Transactions.CreateBooking(cfg, old(db.Snapshot()), req).RolledBack?
      ensures IndexHolds(old(db.claims)) ==> IndexHolds(db.claims)
    {
      var saved, savedClaims, savedQuotes := db.Snapshot(), db.claims, db.quotes;
      var refusal := Admit(req);
      if refusal.Some? { return NotBooked(Refused(refusal.value)); }
      if clash { return NotBooked(ReservationNumberClash); }
      r := WriteBooking(req, claimId, quote);
      if r.NotBooked? {
        db.Restore(saved);
        db.claims, db.quotes := savedClaims, savedQuotes;
      }
    }

    /** The tables with the booking and its hold rows in them, before anything is paid. */
    ghost function WithBooking(before: Db, req: BookingRequest): Db {
      before.(reservations := before.reservations + [NewReservation(cfg, req, before.now)],
              holds := before.holds + BuildHoldRows(|before.reservations|, req.item, before.now + cfg.holdTtlMs))
    }

    /** The writes of an admitted booking, up to the first that fails; a failure leaves the rollback to the caller. */
    method WriteBooking(req: BookingRequest, claimId: nat, quote: nat) returns (r: BookingReply)
      requires Wired()
      modifies db
      ensures var id, paid := |old(db.reservations)|,
                  Coins.RedeemForBooking(WithBooking(old(db.Snapshot()), req), req.user, |old(db.reservations)|, req.coinsRedeemed);
              var marked, consumed := Idempotency.MarkCompleted(old(db.claims), claimId, id), Idempotency.MarkQuoteConsumed(old(db.quotes), quote);
              if paid.Some? && marked.Some? && consumed.Some? then r == Booked(id) && Everything() == Gap(paid.value, consumed.value, marked.value)
              else r.NotBooked? && r.why.Refused? && (marked.Some? && consumed.Some? && req.user in old(db.balances) ==> r.why.error == BadRequest)
      ensures db.events == old(db.events)
      ensures IndexHolds(old(db.claims)) ==> IndexHolds(db.claims)
    {
      var id := InsertBooking(req);
      assert db.Snapshot() == WithBooking(old(db.Snapshot()), req);
      var marked := idempotency.MarkCompleted(claimId, id);
      if !marked { return NotBooked(Refused(NotFound)); }
      if quote >= |db.quotes| { return NotBooked(Refused(NotFound)); }
      db.quotes := db.quotes[quote := db.quotes[quote].(consumed := true)];
      var paid := alterCash.RedeemForBooking(req.user, id, req.coinsRedeemed);
      if paid.Thrown? { return NotBooked(Refused(paid.error)); }
      return Booked(id);
    }

    /** Attempt `a` draws a taken number when `clashes[a]`; only that failure is tried again. */
    method CreateWithRetry(req: BookingRequest, claimId: nat, quote: nat, clashes: seq<bool>) returns (r: BookingReply)
      requires Wired() && |clashes| == CREATE_ATTEMPTS
      modifies db
      ensures CreatesOrRollsBack(old(Everything()), req, claimId, quote, forall a | 0 <= a < CREATE_ATTEMPTS :: clashes[a], Everything(), r)
      ensures db.events == old(db.events)
      ensures IndexHolds(old(db.claims)) ==> IndexHolds(db.claims)
    {
      var attempt := 0;
      while true
        invariant attempt < CREATE_ATTEMPTS
        invariant forall a | 0 <= a < attempt :: clashes[a]
        invariant Everything() == old(Everything()) && db.events == old(db.events)
        decreases CREATE_ATTEMPTS - attempt
      {
        r := CreateInTransaction(req, claimId, quote, clashes[attempt]);
        if attempt + 1 < CREATE_ATTEMPTS && r == NotBooked(ReservationNumberClash) {
          attempt := attempt + 1;
        } else {
          return;
        }
      }
    }

    /** Looks at the quote before anything is claimed, and locks nothing. */
    method LoadConsumableQuote(user: UserId, quote: nat) returns (answer: Idempotency.QuoteAnswer)
      ensures answer == Idempotency.LoadConsumableQuote(db.quotes, user, quote, db.now)
      ensures answer.Consumable? <==>
                quote < |db.quotes| && db.quotes[quote].user == user && !db.quotes[quote].consumed && db.now < db.quotes[quote].expiresAt
      ensures answer == Idempotency.QuoteNotFound <==> quote >= |db.quotes| || db.quotes[quote].user != user
      ensures answer == Idempotency.QuoteUsed <==> quote < |db.quotes| && db.quotes[quote].user == user && db.quotes[quote].consumed
    {
      if quote >= |db.quotes| || db.quotes[quote].user != user { return Idempotency.QuoteNotFound; }
      if db.quotes[quote].consumed { return Idempotency.QuoteUsed; }
      if db.quotes[quote].expiresAt <= db.now { return Idempotency.QuoteExpired; }
      return Idempotency.Consumable;
    }

    /**
     * Refuses a used quote; then, on whatever the tables have become, claims the key, books under the claim, and
     * gives the claim back when booking fails: the key is afterwards either bound to the booking the reply names,
     * or as free as before.
     */
    method CreateBooking(req: BookingRequest, key: nat, hash: Idempotency.Digest, clashes: seq<bool>, gap: Gap) returns (r: BookingReply)
      requires Wired() && IndexHolds(gap.claims) && |clashes| == CREATE_ATTEMPTS
      modifies db
      ensures db.events == old(db.events)
      ensures var quote := Idempotency.LoadConsumableQuote(old(db.quotes), req.user, hash.quote, old(db.now));
              !quote.Consumable? ==> r == NotBooked(QuoteRefused(quote)) && Everything() == old(Everything())
      ensures Idempotency.LoadConsumableQuote(old(db.quotes), req.user, hash.quote, old(db.now)).Consumable? ==>
                ClaimsAndBooks(gap, req, key, hash, forall a | 0 <= a < CREATE_ATTEMPTS :: clashes[a], Everything(), r)
    {
      var quote := LoadConsumableQuote(req.user, hash.quote);
      if !quote.Consumable? { return NotBooked(QuoteRefused(quote)); }
      db.Restore(gap.tables);
      db.claims, db.quotes := gap.claims, gap.quotes;
      r := ClaimAndBook(req, key, hash, clashes);
    }

    /** What a request past its quote check comes to on the tables it finds. */
    ghost predicate ClaimsAndBooks(before: Gap, req: BookingRequest, key: nat, hash: Idempotency.Digest, clash: bool, after: Gap, r: BookingReply) {
      && IndexHolds(after.claims)
      && (r.Replayed? <==>
            && Idempotency.Taken(before.claims, req.user, key)
            && var row := before.claims.rows[Idempotency.Find(before.claims, req.user, key)];
               row.hash == hash && row.status == Idempotency.Completed(if r.Replayed? then r.id else 0))
      && (r.Booked? <==>
            && !Idempotency.Taken(before.claims, req.user, key)
            && Transactions.CreateBooking(cfg, before.tables, req).Committed? && hash.quote < |before.quotes| && !clash)
      && (r == NotBooked(KeyUsedDifferently) <==>
            && Idempotency.Taken(before.claims, req.user, key)
            && before.claims.rows[Idempotency.Find(before.claims, req.user, key)].hash != hash)
      && (r == NotBooked(StillProcessing) <==>
            && Idempotency.Taken(before.claims, req.user, key)
            && var row := before.claims.rows[Idempotency.Find(before.claims, req.user, key)];
               row.hash == hash && row.status == Idempotency.InProgress)
      && (r == NotBooked(ReservationNumberClash) ==> clash)
      && (r.NotBooked? && r.why.Refused? && hash.quote < |before.quotes| ==>
            Transactions.CreateBooking(cfg, before.tables, req) == RolledBack(r.why.error))
      && (r.Booked? ==>
            && Transactions.CreateBooking(cfg, before.tables, req) == Committed(after.tables, r.id)
            && Some(after.quotes) == Idempotency.MarkQuoteConsumed(before.quotes, hash.quote)
            && Idempotency.Taken(after.claims, req.user, key)
            && after.claims.rows[Idempotency.Find(after.claims, req.user, key)].status == Idempotency.Completed(r.id))
      && (!r.Booked? ==>
            after.tables == before.tables && after.quotes == before.quotes && after.claims.rows == before.claims.rows)
    }

    method ClaimAndBook(req: BookingRequest, key: nat, hash: Idempotency.Digest, clashes: seq<bool>) returns (r: BookingReply)
      requires Wired() && IndexHolds(db.claims) && |clashes| == CREATE_ATTEMPTS
      modifies db
      ensures db.events == old(db.events)
      ensures ClaimsAndBooks(old(Everything()), req, key, hash, forall a | 0 <= a < CREATE_ATTEMPTS :: clashes[a], Everything(), r)
    {
      var claim := idempotency.Claim(req.user, key, hash, db.now);
      match claim
      case Replay(booking) => return Replayed(booking);
      case DifferentRequest => return NotBooked(KeyUsedDifferently);
      case StillRunning => return NotBooked(StillProcessing);
      case Acquired(claimId) =>
        r := CreateWithRetry(req, claimId, hash.quote, clashes);
        if r.NotBooked? {
          idempotency.Release(claimId);
          assert db.claims.rows == old(db.claims).rows;
        } else {
          assert Idempotency.Names(db.claims.rows[claimId], req.user, key);
          assert claimId == Idempotency.Find(db.claims, req.user, key);
        }
    }

    // ---- holds

    /** `later` are the tables the writes find; the hold is not looked at again. */
    method TryExtendHold(user: UserId, id: nat, later: Db) returns (r: Reply<Option<Time>>)
      requires RowsLast(db.Snapshot(), later)
      modifies db
      ensures var spec := Transactions.TryExtendHold(old(db.Snapshot()), user, id);
              r == if spec.Committed? then Done(spec.value) else Thrown(spec.error)
      ensures var read := ReadFor(old(db.Snapshot()), Extend(user, id));
              db.Snapshot() == if read.Some? then WriteBack(later, read.value) else old(db.Snapshot())
      ensures db.quotes == old(db.quotes) && db.claims == old(db.claims) && db.events == old(db.events)
    {
      var applies;
      r, applies := ReadExtension(user, id);
      if applies {
        db.Restore(later);
        WriteExtension(id, r.value.value);
      }
    }

    /** What the guest will be told, and whether anything has to be written for it to be true. */
    method ReadExtension(user: UserId, id: nat) returns (r: Reply<Option<Time>>, applies: bool)
      ensures var spec := Transactions.TryExtendHold(db.Snapshot(), user, id);
              r == if spec.Committed? then Done(spec.value) else Thrown(spec.error)
      ensures var read := ReadFor(db.Snapshot(), Extend(user, id));
              applies == read.Some? && (applies ==> r.Done? && r.value.Some? && read.value == ToExtend(id, r.value.value))
    {
      if id >= |db.reservations| || db.reservations[id].user != user { return Thrown(NotFound), false; }
      var reservation := db.reservations[id];
      if reservation.status != PaymentPending || reservation.holdExpiresAt.None? { return Done(None), false; }
      var expiresAt := reservation.holdExpiresAt.value;
      if expiresAt - db.now > HOLD_EXTEND_THRESHOLD_MS { return Done(reservation.holdExpiresAt), false; }
      var proposed := Min(expiresAt + HOLD_EXTEND_BY_MS, reservation.createdAt + MAX_HOLD_MS);
      if proposed <= db.now { return Done(None), false; }
      return Done(Some(proposed)), true;
    }

    method WriteExtension(id: nat, proposed: Time)
      requires id < |db.reservations|
      modifies db`reservations, db`holds
      ensures db.Snapshot() == WriteBack(old(db.Snapshot()), ToExtend(id, proposed))
    {
      db.reservations := db.reservations[id := db.reservations[id].(holdExpiresAt := Some(proposed))];
      db.holds := RestampHolds(db.holds, id, proposed);
    }

    method ExpireReservation(id: nat) returns (expired: bool)
      requires Wired()
      modifies db`reservations, db`holds, db`balances, db`ledger, db`history
      ensures (db.Snapshot(), expired) == Transactions.ExpireReservation(old(db.Snapshot()), id)
      ensures expired <==> id < |old(db.reservations)| && var r := old(db.reservations)[id];
                             r.status == PaymentPending && r.holdExpiresAt.Some? && r.holdExpiresAt.value <= db.now
    {
      if id >= |db.reservations| { return false; }
      var current := db.reservations[id];
      if !Expirable(current, db.now) { return false; }
      assert CanTransition(current.status, Expired);
      db.reservations := db.reservations[id := current.(status := Expired)];
      var _ := inventory.ReleaseHolds(id);
      alterCash.RefundRedemption(id);
      db.history := Record(db.history, id, current.status, Expired);
      return true;
    }

    // ---- completion

    /** The stay is completed in one transaction, its coins are credited in the next. */
    method CompleteStay(id: nat) returns (completed: bool)
      requires Wired()
      modifies db`reservations, db`balances, db`ledger, db`history
      ensures completed == Transactions.CompleteStay(old(db.Snapshot()), id).1
      ensures completed <==> id < |old(db.reservations)| && old(db.reservations)[id].status == Confirmed
      ensures db.Snapshot() == if completed then CompleteAndCredit(old(db.Snapshot()), id) else old(db.Snapshot())
    {
      if id >= |db.reservations| { return false; }
      var current := db.reservations[id];
      if current.status != Confirmed { return false; }
      assert CanTransition(current.status, Completed);
      db.reservations := db.reservations[id := current.(status := Completed)];
      db.history := Record(db.history, id, current.status, Completed);
      var _ := alterCash.CreditEarnOnComplete(id);
      return true;
    }
  }

  /** A stay completed in one transaction and credited in the next. */
  function CompleteAndCredit(db: Db, id: nat): Db {
    Coins.CreditEarnOnComplete(Transactions.CompleteStay(db, id).0, id).0
  }

  lemma CompletionIsARun(cfg: Config, db: Db, id: nat)
    ensures CompleteAndCredit(db, id) == Run(cfg, db, [Complete(id), CreditEarn(id)])
  {
    assert Run(cfg, db, [Complete(id)]) == Apply(cfg, Run(cfg, db, []), Complete(id));
    assert [Complete(id), CreditEarn(id)][..1] == [Complete(id)];
  }
}
