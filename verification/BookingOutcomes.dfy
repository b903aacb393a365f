/** What booking, extension, expiry, completion and the coin postings come to for the guest, column by column. */
module BookingOutcomes {
  import opened Basics
  import opened Lifecycle
  import opened Tables
  import opened Inventory
  import opened Coins
  import opened Transactions
  import opened Invariants
  import opened PaymentProofs
  import opened CoinProofs
  import opened TrailProofs
  import opened StaySteps
  import opened Runs

  // ---- free rooms

  /** With no hold rows a night has what is neither blocked nor sold; a hold row takes its rooms while it counts. */
  lemma FreeRoomsUnfold(db: Db, slot: Slot, now: Time, h: Hold)
    requires slot in db.inventory
    ensures db.holds == [] ==>
              FreeRooms(db, slot, now)
              == db.inventory[slot].totalRooms - db.inventory[slot].blockedRooms - db.inventory[slot].soldRooms
    ensures FreeRooms(db, slot, now) - FreeRooms(db.(holds := db.holds + [h]), slot, now)
            == if h.slot == slot && h.expiresAt > now && h.reservation < |db.reservations|
                  && db.reservations[h.reservation].status == PaymentPending
               then h.quantity else 0
  {
    assert (db.holds + [h])[..|db.holds|] == db.holds;
  }

  /** Every night from check-in up to check-out has a row and at least the rooms wanted. */
  ghost predicate RoomOnEveryNight(db: Db, item: Item) {
    forall night | item.checkIn <= night < item.checkOut ::
      Slot(item.roomType, night) in db.inventory && FreeRooms(db, Slot(item.roomType, night), db.now) >= item.quantity
  }

  lemma AvailableEveryNight(db: Db, item: Item)
    ensures CheckAvailability(db, item.roomType, EachNight(item.checkIn, item.checkOut), item.quantity, db.now).Available?
            <==> RoomOnEveryNight(db, item)
  {
    AvailableIsFits(db, item, db.now);
    assert Fits(db, item, db.now) ==> RoomOnEveryNight(db, item) by {
      forall night | Fits(db, item, db.now) && item.checkIn <= night < item.checkOut
        ensures Slot(item.roomType, night) in db.inventory && FreeRooms(db, Slot(item.roomType, night), db.now) >= item.quantity
      {
        assert Covers(item, Slot(item.roomType, night));
      }
    }
    assert RoomOnEveryNight(db, item) ==> Fits(db, item, db.now) by {
      forall slot | RoomOnEveryNight(db, item) && Covers(item, slot)
        ensures slot in db.inventory && FreeRooms(db, slot, db.now) >= item.quantity
      {
        assert slot == Slot(item.roomType, slot.night);
      }
    }
  }

  // ---- booking

  predicate WellFormed(req: BookingRequest) {
    req.item.quantity >= 1 && req.item.checkIn < req.item.checkOut
  }

  /** A booking commits exactly when it is well formed, its guest is known, there is room and the coins are there. */
  lemma BookingCommitsExactly(cfg: Config, db: Db, req: BookingRequest)
    ensures var tx := CreateBooking(cfg, db, req);
            && (tx.Committed? <==>
                  && WellFormed(req) && req.user in db.balances && RoomOnEveryNight(db, req.item)
                  && (req.coinsRedeemed > 0 ==> req.coinsRedeemed <= db.balances[req.user]))
            && (tx == RolledBack(NotFound) <==> WellFormed(req) && req.user !in db.balances)
            && (tx == RolledBack(Conflict) <==> WellFormed(req) && req.user in db.balances && !RoomOnEveryNight(db, req.item))
  {
    AvailableEveryNight(db, req.item);
  }

  /** The rows a hold consists of: one for each night, over the rooms booked, all with one expiry. */
  ghost predicate HoldsTheStay(rows: seq<Hold>, id: nat, item: Item, expiresAt: Time) {
    && |rows| == Max(0, item.checkOut - item.checkIn)
    && forall i | 0 <= i < |rows| :: rows[i] == Hold(id, Slot(item.roomType, item.checkIn + i), item.quantity, expiresAt)
  }

  /** What a request asks for is what is written: terms, hold and coins; every other row stays. */
  lemma BookingIsAsQuoted(cfg: Config, db: Db, req: BookingRequest)
    requires CreateBooking(cfg, db, req).Committed?
    ensures var tx := CreateBooking(cfg, db, req);
            var db', id := tx.db, tx.value;
            && id == |db.reservations| && |db'.reservations| == id + 1 && db'.reservations[..id] == db.reservations
            && AsRequested(db'.reservations[id], req, db.now) && db'.reservations[id].status == PaymentPending
            && db'.reservations[id].holdExpiresAt == Some(db.now + cfg.holdTtlMs)
            && db'.reservations[id].confirmedAt.None? && db'.reservations[id].coinsEarnedAt.None?
            && |db'.holds| >= |db.holds| && db'.holds[..|db.holds|] == db.holds
            && HoldsTheStay(db'.holds[|db.holds|..], id, req.item, db.now + cfg.holdTtlMs)
            && req.user in db.balances && db'.balances == db.balances[req.user := db.balances[req.user] - req.coinsRedeemed]
            && db' == db.(reservations := db'.reservations, holds := db'.holds, balances := db'.balances, ledger := db'.ledger)
  {}

  /** The terms a booking was requested with, at that instant. */
  predicate AsRequested(r: Reservation, req: BookingRequest, at: Time) {
    && r.user == req.user && r.items == [req.item] && r.createdAt == at
    && r.totalAmount == req.totalAmount && r.currency == req.currency
    && r.coinsRedeemed == req.coinsRedeemed && r.coinsEarnable == req.coinsEarnable
  }

  /** Booking `id` has its requested terms, and whatever is asked of its guest is the quoted amount. */
  ghost predicate KeepsItsQuote(s: Db, id: nat, req: BookingRequest, at: Time) {
    && id < |s.reservations| && AsRequested(s.reservations[id], req, at)
    && forall p | 0 <= p < |s.payments| && s.payments[p].reservation == id ::
         s.payments[p].amount == req.totalAmount && s.payments[p].currency == req.currency
  }

  /** Whatever happens after a booking, it keeps the terms quoted for it, and every payment of it is over that total. */
  lemma BookingKeepsItsQuote(cfg: Config, db: Db, req: BookingRequest, steps: seq<Step>)
    requires Inv(db) && CreateBooking(cfg, db, req).Committed?
    ensures KeepsItsQuote(Run(cfg, CreateBooking(cfg, db, req).db, steps), |db.reservations|, req, db.now)
  {
    var booked, id := CreateBooking(cfg, db, req).db, |db.reservations|;
    StepKeepsInv(cfg, db, Create(req));
    BookingIsAsQuoted(cfg, db, req);
    RunOnKeepsInv(cfg, booked, steps);
    assert TermsKept(booked.reservations[id], Run(cfg, booked, steps).reservations[id]);
  }

  // ---- extension

  /** The guest is told the expiry the hold has afterwards: the present one with more than 20 minutes left, else 15 minutes more, within the hour. */
  lemma ExtensionTellsTheExpiry(db: Db, user: UserId, id: nat)
    ensures var tx := TryExtendHold(db, user, id);
            if id >= |db.reservations| || db.reservations[id].user != user then tx == RolledBack(NotFound)
            else
              var r := db.reservations[id];
              && tx.Committed? && |tx.db.reservations| == |db.reservations|
              && (tx.value.None? ==> tx.db == db)
              && (tx.value.Some? ==>
                    && tx.db.reservations[id].status == PaymentPending && tx.db.reservations[id].holdExpiresAt == tx.value
                    && r.holdExpiresAt.Some?
                    && (r.holdExpiresAt.value - db.now > 1_200_000 ==> tx.db == db)
                    && (r.holdExpiresAt.value - db.now <= 1_200_000 ==>
                          && tx.value.value > db.now
                          && tx.value.value <= r.holdExpiresAt.value + 900_000 && tx.value.value <= r.createdAt + 3_600_000
                          && (tx.value.value == r.holdExpiresAt.value + 900_000 || tx.value.value == r.createdAt + 3_600_000)))
              && (tx.value.None? <==>
                    || r.status != PaymentPending || r.holdExpiresAt.None?
                    || (&& r.holdExpiresAt.value - db.now <= 1_200_000
                        && (r.holdExpiresAt.value + 900_000 <= db.now || r.createdAt + 3_600_000 <= db.now)))
  {}

  /** All hold rows of the booking say what the guest was told, and no other row is touched. */
  lemma ExtensionReachesItsRows(db: Db, user: UserId, id: nat, k: nat)
    requires StayInv(db) && TryExtendHold(db, user, id).Committed? && TryExtendHold(db, user, id).value.Some?
    ensures var tx := TryExtendHold(db, user, id);
            && tx.db == db.(reservations := tx.db.reservations, holds := tx.db.holds)
            && tx.db.reservations == db.reservations[id := db.reservations[id].(holdExpiresAt := tx.value)]
            && (if k == id then forall i | 0 <= i < |HoldsOf(tx.db.holds, id)| :: HoldsOf(tx.db.holds, id)[i].expiresAt == tx.value.value
                else HoldsOf(tx.db.holds, k) == HoldsOf(db.holds, k))
  {
    var tx := TryExtendHold(db, user, id);
    assert HoldRowsMatch(db.reservations, db.holds, id);
    if tx.db == db {
      assert RowOk(db.inventory, db.reservations, id);
    } else {
      RestampedRows(db.holds, id, tx.value.value, k);
    }
  }

  lemma RestampedRows(holds: seq<Hold>, id: nat, t: Time, k: nat)
    ensures k != id ==> HoldsOf(RestampHolds(holds, id, t), k) == HoldsOf(holds, k)
    ensures forall i | 0 <= i < |HoldsOf(RestampHolds(holds, id, t), id)| :: HoldsOf(RestampHolds(holds, id, t), id)[i].expiresAt == t
  {
    HoldsOfRestamp(holds, id, t, k);
    HoldsOfRestamp(holds, id, t, id);
    RestampPointwise(HoldsOf(holds, id), id, t);
    OwnersOf(holds, id);
  }

  lemma {:induction false} OwnersOf(holds: seq<Hold>, id: nat)
    ensures forall i | 0 <= i < |HoldsOf(holds, id)| :: HoldsOf(holds, id)[i].reservation == id
  {
    if |holds| > 0 {
      OwnersOf(holds[..|holds| - 1], id);
    }
  }

  // ---- expiry

  /** Expiry re-reads the hold: one that still lasts is left alone, a lapsed one is released. */
  lemma ExpiryReleasesLapsedHolds(db: Db, id: nat)
    ensures var (db', expired) := ExpireReservation(db, id);
            && (expired <==> && id < |db.reservations| && db.reservations[id].status == PaymentPending
                             && db.reservations[id].holdExpiresAt.Some? && db.reservations[id].holdExpiresAt.value <= db.now)
            && (!expired ==> db' == db)
            && (expired ==>
                  && db'.reservations == db.reservations[id := db.reservations[id].(status := Expired)]
                  && (forall k :: HoldsOf(db'.holds, k) == if k == id then [] else HoldsOf(db.holds, k))
                  && db'.history == db.history + [HistoryEntry(id, PaymentPending, Expired)]
                  && db'.inventory == db.inventory && db'.payments == db.payments && db'.refunds == db.refunds && db'.now == db.now)
  {
    forall k: nat ensures HoldsOf(ReleaseHolds(db.holds, id), k) == if k == id then [] else HoldsOf(db.holds, k) {
      HoldsOfRelease(db.holds, id, k);
    }
  }

  lemma ExpirySparesLiveHolds(db: Db, id: nat)
    ensures id < |db.reservations| && HoldLive(db.reservations[id], db.now) ==> ExpireReservation(db, id) == (db, false)
  {
    ExpiryReleasesLapsedHolds(db, id);
  }

  /** A trail that went through EXPIRED or CANCELLED has come past waiting for payment for good. */
  lemma {:induction false} ReleasedHasRank(history: seq<HistoryEntry>, id: nat, end: ReservationStatus)
    requires Walk(Trail(history, id), PaymentPending, end) && WasReleased(history, id)
    ensures Rank(end) >= 2
  {
    var front, last := history[..|history| - 1], history[|history| - 1];
    if last.reservation == id {
      assert Trail(history, id)[..|Trail(front, id)|] == Trail(front, id);
      if WasReleased(front, id) {
        ReleasedHasRank(front, id, last.from);
      }
    } else {
      assert Trail(history, id) == Trail(front, id);
      ReleasedHasRank(front, id, end);
    }
  }

  lemma PendingWasNotReleased(db: Db, id: nat)
    requires TrailInv(db) && id < |db.reservations|
    ensures db.reservations[id].status == PaymentPending ==> !WasReleased(db.history, id)
  {
    assert TrailOk(db, id);
    if db.reservations[id].status == PaymentPending && WasReleased(db.history, id) {
      ReleasedHasRank(db.history, id, PaymentPending);
    }
  }

  /** The coins of a released booking come back to its guest, unless they came back before; no other balance moves. */
  ghost predicate CoinsComeBack(db: Db, db': Db, id: nat)
    requires id < |db.reservations| && db.reservations[id].user in db.balances
  {
    var r := db.reservations[id];
    db'.balances == db.balances[r.user := db.balances[r.user] + if WasReleased(db.history, id) then 0 else r.coinsRedeemed]
  }

  lemma RefundMovesBalance(db: Db, freed: Db, id: nat)
    requires CoinInv(db) && id < |db.reservations| && freed.balances == db.balances && freed.ledger == db.ledger
    requires id < |freed.reservations| && freed.reservations[id].user == db.reservations[id].user
    requires freed.reservations[id].coinsRedeemed == db.reservations[id].coinsRedeemed
    ensures db.reservations[id].user in db.balances && CoinsComeBack(db, RefundRedemption(freed, id), id)
  {
    assert CoinRowOk(db, id);
    HasEntryIsCount(db.ledger, id, RedeemRefund);
  }

  /** An expired booking's guest has the redeemed coins back in full. */
  lemma ExpiryGivesCoinsBack(db: Db, id: nat)
    requires Inv(db) && ExpireReservation(db, id).1
    ensures var r := db.reservations[id];
            && r.user in db.balances && !WasReleased(db.history, id)
            && ExpireReservation(db, id).0.balances == db.balances[r.user := db.balances[r.user] + r.coinsRedeemed]
  {
    PendingWasNotReleased(db, id);
    RefundMovesBalance(db, db.(reservations := db.reservations[id := db.reservations[id].(status := Expired)],
                               holds := ReleaseHolds(db.holds, id)), id);
  }

  // ---- moves an operator makes

  /** What each of the operations on a stay demands of its status, and what it is told otherwise. */
  lemma StayOperationsCommitExactly(db: Db, id: nat, initiateRefund: bool)
    ensures id >= |db.reservations| ==>
              && AdminAccept(db, id) == AdminNoShow(db, id) == AdminCancel(db, id, initiateRefund) == RolledBack(NotFound)
              && CompleteStay(db, id) == (db, false)
    ensures id < |db.reservations| ==>
              var status := db.reservations[id].status;
              && (AdminAccept(db, id).Committed? <==> status == PaymentPending)
              && (AdminAccept(db, id).RolledBack? ==> AdminAccept(db, id).error == BadRequest)
              && (AdminNoShow(db, id).Committed? <==> status == Confirmed)
              && (AdminNoShow(db, id).RolledBack? ==> AdminNoShow(db, id).error == Conflict)
              && (AdminCancel(db, id, initiateRefund).Committed? <==> status == Pending || status == PaymentPending || status == Confirmed)
              && (AdminCancel(db, id, initiateRefund).RolledBack? ==> AdminCancel(db, id, initiateRefund).error == Conflict)
              && (CompleteStay(db, id).1 <==> status == Confirmed)
              && (!CompleteStay(db, id).1 ==> CompleteStay(db, id).0 == db)
  {}

  /** Only the row of one booking changes, and the trail says how its status did. */
  ghost predicate OnlyMoves(db: Db, db': Db, id: nat, r: Reservation)
    requires id < |db.reservations|
  {
    && db'.reservations == db.reservations[id := r]
    && db'.history == db.history + [HistoryEntry(id, db.reservations[id].status, r.status)]
    && db'.now == db.now && db'.refunds == db.refunds
  }

  /** An accepted booking is confirmed now and has no expiry; payments and coins are left alone. */
  lemma AcceptanceConfirms(db: Db, id: nat)
    requires AdminAccept(db, id).Committed?
    ensures var db' := AdminAccept(db, id).db;
            && OnlyMoves(db, db', id, db.reservations[id].(status := Confirmed, confirmedAt := Some(db.now), holdExpiresAt := None))
            && db'.payments == db.payments && db'.balances == db.balances && db'.ledger == db.ledger
            && (forall k :: HoldsOf(db'.holds, k) == if k == id then [] else HoldsOf(db.holds, k))
  {
    forall k: nat ensures HoldsOf(ReleaseHolds(db.holds, id), k) == if k == id then [] else HoldsOf(db.holds, k) {
      HoldsOfRelease(db.holds, id, k);
    }
  }

  /** Completion and no-show rewrite the status and nothing else. */
  lemma StayEnds(db: Db, id: nat)
    ensures CompleteStay(db, id).1 ==>
              && OnlyMoves(db, CompleteStay(db, id).0, id, db.reservations[id].(status := Completed))
              && CompleteStay(db, id).0 == db.(reservations := CompleteStay(db, id).0.reservations, history := CompleteStay(db, id).0.history)
    ensures AdminNoShow(db, id).Committed? ==>
              && OnlyMoves(db, AdminNoShow(db, id).db, id, db.reservations[id].(status := NoShow))
              && AdminNoShow(db, id).db == db.(reservations := AdminNoShow(db, id).db.reservations, history := AdminNoShow(db, id).db.history)
  {}

  /** The tables once a cancellation has freed the stay and before it gives coins back. */
  function Freed(db: Db, id: nat): Db
    requires id < |db.reservations|
  {
    var r := db.reservations[id];
    db.(holds := if r.status == PaymentPending then ReleaseHolds(db.holds, id) else db.holds,
        inventory := if r.status == Confirmed then RestoreItems(db.inventory, r.items) else db.inventory,
        reservations := db.reservations[id := r.(status := Cancelled, holdExpiresAt := None)])
  }

  lemma CancelIsFreeing(db: Db, id: nat, initiateRefund: bool)
    requires AdminCancel(db, id, initiateRefund).Committed?
    ensures var db', freed := AdminCancel(db, id, initiateRefund).db, Freed(db, id);
            && OnlyMoves(db, db', id, db.reservations[id].(status := Cancelled, holdExpiresAt := None))
            && db'.holds == freed.holds && db'.inventory == freed.inventory && db'.balances == RefundRedemption(freed, id).balances
  {}

  /** No hold row of the booking is left, and every other one is. */
  lemma FreedHolds(db: Db, id: nat, k: nat)
    requires StayInv(db) && id < |db.reservations|
    ensures HoldsOf(Freed(db, id).holds, k) == if k == id then [] else HoldsOf(db.holds, k)
  {
    assert HoldRowsMatch(db.reservations, db.holds, id);
    HoldsOfRelease(db.holds, id, k);
  }

  /** The counters give back exactly what a confirmed stay had taken. */
  lemma FreedCounters(db: Db, id: nat, slot: Slot)
    requires StayInv(db) && id < |db.reservations| && slot in db.inventory
    ensures var taken := if db.reservations[id].status == Confirmed then Demand(db.reservations[id].items, slot) else 0;
            && Freed(db, id).inventory.Keys == db.inventory.Keys
            && Freed(db, id).inventory[slot] == db.inventory[slot].(soldRooms := db.inventory[slot].soldRooms - taken)
  {
    var r := db.reservations[id];
    assert RowOk(db.inventory, db.reservations, id);
    if r.status == Confirmed {
      RestoreNeverClamps(db, id);
      RestoreItemsTakesDemand(db.inventory, r.items);
    }
  }

  /** A cancelled booking holds and sells nothing any more, and its guest has the coins back. */
  lemma CancellationFreesTheStay(db: Db, id: nat, initiateRefund: bool, k: nat, slot: Slot)
    requires Inv(db) && AdminCancel(db, id, initiateRefund).Committed? && slot in db.inventory
    ensures var db', r := AdminCancel(db, id, initiateRefund).db, db.reservations[id];
            var taken := if r.status == Confirmed then Demand(r.items, slot) else 0;
            && OnlyMoves(db, db', id, r.(status := Cancelled, holdExpiresAt := None))
            && HoldsOf(db'.holds, k) == (if k == id then [] else HoldsOf(db.holds, k))
            && slot in db'.inventory
            && db'.inventory[slot] == db.inventory[slot].(soldRooms := db.inventory[slot].soldRooms - taken)
            && r.user in db.balances && CoinsComeBack(db, db', id)
            && (r.status == PaymentPending ==> !WasReleased(db.history, id))
  {
    CancelIsFreeing(db, id, initiateRefund);
    RefundMovesBalance(db, Freed(db, id), id);
    FreedHolds(db, id, k);
    FreedCounters(db, id, slot);
    PendingWasNotReleased(db, id);
  }

  // ---- coins

  /** A completed stay that has not been credited is credited what it earns, and stamped. */
  lemma CreditPaysWhatWasEarned(db: Db, id: nat)
    requires CoinInv(db) && id < |db.reservations| && db.reservations[id].status == Completed && db.reservations[id].coinsEarnedAt.None?
    ensures var (db', credited) := CreditEarnOnComplete(db, id);
            var r, earned := db.reservations[id], Max(0, db.reservations[id].coinsEarnable);
            && (credited <==> r.coinsEarnable > 0)
            && r.user in db.balances && db'.balances == db.balances[r.user := db.balances[r.user] + earned]
            && KindTotal(db'.ledger, id, Earn) == earned
            && db'.reservations == db.reservations[id := r.(coinsEarnedAt := Some(db.now))]
            && db' == db.(reservations := db'.reservations, balances := db'.balances, ledger := db'.ledger)
  {
    var r := db.reservations[id];
    assert CoinRowOk(db, id);
    HasEntryIsCount(db.ledger, id, Earn);
    EarnKeepsCoins(db, id);
    assert CoinRowOk(CreditEarnOnComplete(db, id).0, id);
  }

  /** Any other booking is left as it is: it has not ended, or it has had its coins. */
  lemma CreditHappensOnce(db: Db, id: nat)
    ensures id >= |db.reservations| || db.reservations[id].status != Completed || db.reservations[id].coinsEarnedAt.Some? ==>
              CreditEarnOnComplete(db, id) == (db, false)
    ensures CoinInv(db) ==> CreditEarnOnComplete(CreditEarnOnComplete(db, id).0, id) == (CreditEarnOnComplete(db, id).0, false)
  {
    if CoinInv(db) && id < |db.reservations| && db.reservations[id].status == Completed && db.reservations[id].coinsEarnedAt.None? {
      CreditPaysWhatWasEarned(db, id);
    }
  }

  /** From check-out to coins: a confirmed stay ends completed, with its guest the richer by what it earns. */
  lemma CompletionPaysTheGuest(db: Db, id: nat)
    requires CoinInv(db) && id < |db.reservations| && db.reservations[id].status == Confirmed
    ensures var end, r := CreditEarnOnComplete(CompleteStay(db, id).0, id).0, db.reservations[id];
            && end.reservations == db.reservations[id := r.(status := Completed, coinsEarnedAt := Some(db.now))]
            && r.user in db.balances && end.balances == db.balances[r.user := db.balances[r.user] + Max(0, r.coinsEarnable)]
            && KindTotal(end.ledger, id, Earn) == Max(0, r.coinsEarnable)
  {
    assert CoinRowOk(db, id);
    CompleteKeepsCoins(db, id);
    CreditPaysWhatWasEarned(CompleteStay(db, id).0, id);
  }

  /** An adjustment moves one balance by the amount asked, or is refused: nothing to move, nobody there, or not enough. */
  lemma AdjustmentMovesBalanceExactly(db: Db, user: UserId, amount: int)
    ensures AdjustBalance(db, user, amount).Some? <==> amount != 0 && user in db.balances && db.balances[user] + amount >= 0
    ensures AdjustBalance(db, user, amount).Some? ==>
              var db' := AdjustBalance(db, user, amount).value;
              && db'.balances == db.balances[user := db.balances[user] + amount]
              && db'.ledger == db.ledger + [CoinEntry(user, Adjust, amount, db.balances[user] + amount, None)]
              && db' == db.(balances := db'.balances, ledger := db'.ledger)
  {}

  /** A redemption takes exactly the coins asked from an account that has them. */
  lemma RedemptionTakesTheCoins(db: Db, user: UserId, id: nat, amount: int)
    ensures RedeemForBooking(db, user, id, amount).Some? <==> amount <= 0 || (user in db.balances && amount <= db.balances[user])
    ensures RedeemForBooking(db, user, id, amount).Some? ==>
              var db' := RedeemForBooking(db, user, id, amount).value;
              && (amount <= 0 ==> db' == db)
              && (amount > 0 ==>
                    && db'.balances == db.balances[user := db.balances[user] - amount]
                    && db'.ledger == db.ledger + [CoinEntry(user, Redeem, 0 - amount, db.balances[user] - amount, Some(id))]
                    && db' == db.(balances := db'.balances, ledger := db'.ledger))
  {}
}
