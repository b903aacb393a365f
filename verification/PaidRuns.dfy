/**
 * Concrete runs of one room and its guest through payment: what the code promises less of than it
 * seems. A payment flagged for refund confirms its booking, so does one given back in full, and coins
 * refunded at expiry stay with a guest whose stay is confirmed afterwards.
 */
module PaidRuns {
  import opened Basics
  import opened Lifecycle
  import opened Tables
  import opened Inventory
  import opened Transactions
  import opened Invariants
  import opened Runs
  import opened Counterexamples

  function PaymentOf(status: PaymentStatus, flagged: bool): Payment { Payment(0, 1000, "INR", status, flagged, 0) }

  function NoticeOf(event: nat): Notification { Notification(event, 0, 0, 1000, "INR", true) }

  /** The guest has booked and opened a session. */
  const ATTEMPTED := HOTEL.(
    reservations := [BookingOf(0, 0, 45 * MINUTE)], holds := [RowOf(0, 45 * MINUTE)],
    payments := [PaymentOf(AttemptPending, false)])

  const ATTEMPT: seq<Step> := [] + [Create(RequestOf(0))] + [Prepare(0, 0)]

  lemma Prepares(db: Db)
    requires |db.reservations| == 1 && db.reservations[0].user == 0 && Payable(SETTINGS, db.reservations[0], db.now)
    requires db.payments == []
    ensures Apply(SETTINGS, db, Prepare(0, 0))
            == db.(payments := [Payment(0, db.reservations[0].totalAmount, db.reservations[0].currency, AttemptPending, false, db.now)])
  {}

  lemma Attempts()
    ensures Run(SETTINGS, HOTEL, ATTEMPT) == ATTEMPTED
  {
    assert Run(SETTINGS, HOTEL, []) == HOTEL;
    RunSnoc(SETTINGS, HOTEL, [], Create(RequestOf(0)));
    Books(HOTEL, 0);
    RunSnoc(SETTINGS, HOTEL, [] + [Create(RequestOf(0))], Prepare(0, 0));
    Prepares(ATTEMPTED.(payments := []));
  }

  /** The pending booking of `ATTEMPTED`, whatever has become of its payment. */
  predicate Unconfirmed(db: Db, p: Payment) {
    && db.now == 0 && db.inventory == HOTEL.inventory && db.reservations == ATTEMPTED.reservations && db.holds == ATTEMPTED.holds
    && db.payments == [p]
  }

  const STAYING := BookingOf(0, 0, 45 * MINUTE).(status := Confirmed, confirmedAt := Some(0), holdExpiresAt := None)

  function ConfirmedFrom(db: Db, flagged: bool): Db {
    db.(inventory := map[SLOT := InventoryRow(1, 0, 1)], reservations := [STAYING], holds := [],
        payments := [PaymentOf(Captured, flagged)], history := Record(db.history, 0, PaymentPending, Confirmed))
  }

  lemma ConvertsTheHold(db: Db)
    requires db.inventory == HOTEL.inventory && db.holds == ATTEMPTED.holds
    ensures |HoldsOf(db.holds, 0)| == 1
    ensures ConvertHoldsToSold(db, 0) == db.(inventory := map[SLOT := InventoryRow(1, 0, 1)], holds := [])
  {
    var row := RowOf(0, 45 * MINUTE);
    assert [row][..0] == [];
    assert HoldsOf([row], 0) == [row] && ReleaseHolds([row], 0) == [];
    assert RowQuantity([row], SLOT) == 1;
  }

  /** A success event for a payment that has not failed confirms on time, whatever that payment went through. */
  lemma ConfirmsOnTime(db: Db, p: Payment, event: nat)
    requires Unconfirmed(db, p) && p == PaymentOf(p.status, p.refundRequired) && p.status != Failed
    ensures ProcessNotification(db, NoticeOf(event)) == (ConfirmedFrom(db, p.refundRequired), Accepted(Confirmed, Captured))
  {
    ConvertsTheHold(db);
    assert HoldLive(db.reservations[0], db.now) && OnTime(db, 0);
    assert db.payments[0 := p.(status := Captured)] == [PaymentOf(Captured, p.refundRequired)];
    assert db.reservations[0 := STAYING] == [STAYING];
  }

  const CONFIRMED_STAY := ConfirmedFrom(ATTEMPTED, false)

  lemma ConfirmsAttempt()
    ensures Apply(SETTINGS, ATTEMPTED, Notify(NoticeOf(1))) == CONFIRMED_STAY
  {
    ConfirmsOnTime(ATTEMPTED, PaymentOf(AttemptPending, false), 1);
  }

  lemma Confirms()
    ensures Run(SETTINGS, HOTEL, ATTEMPT + [Notify(NoticeOf(1))]) == CONFIRMED_STAY
  {
    Attempts();
    ConfirmsAttempt();
    RunTo(SETTINGS, HOTEL, ATTEMPT, ATTEMPTED, Notify(NoticeOf(1)), CONFIRMED_STAY);
  }

  // ---- a payment flagged for refund confirms its booking

  /** The session was rejected, and the attempt settled all the same. */
  const WRITE_OFF: seq<Step> := ATTEMPT + [FailSession(0)] + [Notify(NoticeOf(1))]

  const WRITTEN_OFF := ATTEMPTED.(payments := [PaymentOf(Captured, true)])

  lemma FailsAndSettles()
    ensures Apply(SETTINGS, ATTEMPTED, FailSession(0)) == ATTEMPTED.(payments := [PaymentOf(Failed, false)])
    ensures Apply(SETTINGS, ATTEMPTED.(payments := [PaymentOf(Failed, false)]), Notify(NoticeOf(1))) == WRITTEN_OFF
  {}

  lemma WritesOff()
    ensures Run(SETTINGS, HOTEL, WRITE_OFF) == WRITTEN_OFF
  {
    Attempts();
    FailsAndSettles();
    var failed := ATTEMPTED.(payments := [PaymentOf(Failed, false)]);
    RunTo(SETTINGS, HOTEL, ATTEMPT, ATTEMPTED, FailSession(0), failed);
    RunTo(SETTINGS, HOTEL, ATTEMPT + [FailSession(0)], failed, Notify(NoticeOf(1)), WRITTEN_OFF);
  }

  /** The next success event confirms with the payment that is due for refund, and the flag stays. */
  lemma FlaggedPaymentConfirms()
    ensures Initial(HOTEL)
    ensures var s := Run(SETTINGS, HOTEL, WRITE_OFF + [Notify(NoticeOf(2))]);
            && |s.reservations| == 1 && s.reservations[0].status == Confirmed
            && s.payments == [PaymentOf(Captured, true)]
  {
    WritesOff();
    RunSnoc(SETTINGS, HOTEL, WRITE_OFF, Notify(NoticeOf(2)));
    ConfirmsOnTime(WRITTEN_OFF, PaymentOf(Captured, true), 2);
  }

  // ---- a payment given back in full confirms its booking

  const REFUNDED := WRITTEN_OFF.(
    payments := [PaymentOf(Refunded, false)], refunds := [Refund(0, 1000)],
    history := [HistoryEntry(0, PaymentPending, PaymentPending)])

  const GIVE_BACK: seq<Step> := WRITE_OFF + [RefundPayment(0, 0, None)]

  lemma GivesBack()
    ensures Run(SETTINGS, HOTEL, GIVE_BACK) == REFUNDED
  {
    WritesOff();
    RunSnoc(SETTINGS, HOTEL, WRITE_OFF, RefundPayment(0, 0, None));
  }

  /** A second success event then keeps a charge of which nothing is left. */
  lemma RefundedPaymentConfirms()
    ensures Initial(HOTEL)
    ensures var s := Run(SETTINGS, HOTEL, GIVE_BACK + [Notify(NoticeOf(2))]);
            && |s.reservations| == 1 && s.reservations[0].status == Confirmed
            && |s.payments| == 1 && KeptCharge(s.payments[0])
            && RefundedSum(s.refunds, 0) == s.payments[0].amount == 1000
  {
    GivesBack();
    RunSnoc(SETTINGS, HOTEL, GIVE_BACK, Notify(NoticeOf(2)));
    ConfirmsOnTime(REFUNDED, PaymentOf(Refunded, false), 2);
    assert [Refund(0, 1000)][..0] == [];
    assert RefundedSum([Refund(0, 1000)], 0) == 1000;
  }

  // ---- coins refunded at expiry stay with the guest

  const COIN_REQUEST := RequestOf(0).(coinsRedeemed := 200)

  const REDEEM: seq<Step> := [] + [AdjustCoins(0, 500)] + [Create(COIN_REQUEST)] + [Prepare(0, 0)]
  const LAPSE: seq<Step> := REDEEM + [Tick(46 * MINUTE)] + [Expire(0)]

  const WITH_COINS := HOTEL.(balances := HOTEL.balances[0 := 500], ledger := [CoinEntry(0, Adjust, 500, 500, None)])

  const REDEEMED := WITH_COINS.(
    reservations := [NewReservation(SETTINGS, COIN_REQUEST, 0)], holds := [RowOf(0, 45 * MINUTE)],
    balances := WITH_COINS.balances[0 := 300],
    ledger := WITH_COINS.ledger + [CoinEntry(0, Redeem, -200, 300, Some(0))])

  lemma BooksWithCoins()
    ensures Apply(SETTINGS, WITH_COINS, Create(COIN_REQUEST)) == REDEEMED
  {
    assert EachNight(0, 1) == [0];
    CheckAvailabilityExact(WITH_COINS, 0, [0], 1, 0);
    assert BuildHoldRows(0, Item(0, 0, 1, 1), 45 * MINUTE) == [RowOf(0, 45 * MINUTE)];
  }

  lemma AdjustsCoins()
    ensures Apply(SETTINGS, HOTEL, AdjustCoins(0, 500)) == WITH_COINS
  {
    assert HOTEL.ledger + [CoinEntry(0, Adjust, 500, 500, None)] == WITH_COINS.ledger;
  }

  lemma Redeems()
    ensures Run(SETTINGS, HOTEL, REDEEM) == REDEEMED.(payments := [PaymentOf(AttemptPending, false)])
  {
    assert Run(SETTINGS, HOTEL, []) == HOTEL;
    RunSnoc(SETTINGS, HOTEL, [], AdjustCoins(0, 500));
    AdjustsCoins();
    RunSnoc(SETTINGS, HOTEL, [] + [AdjustCoins(0, 500)], Create(COIN_REQUEST));
    BooksWithCoins();
    RunSnoc(SETTINGS, HOTEL, [] + [AdjustCoins(0, 500)] + [Create(COIN_REQUEST)], Prepare(0, 0));
    Prepares(REDEEMED);
  }

  predicate ExpiredUnpaid(s: Db) {
    && s.inventory == HOTEL.inventory && s.holds == []
    && s.reservations == [NewReservation(SETTINGS, COIN_REQUEST, 0).(status := Expired)]
    && s.payments == [PaymentOf(AttemptPending, false)]
    && s.history == [HistoryEntry(0, PaymentPending, Expired)]
  }

  lemma ExpiresUnpaid()
    ensures ExpiredUnpaid(ExpireReservation(OVERDUE, 0).0)
  {
    var row := RowOf(0, 45 * MINUTE);
    assert [row][..0] == [];
    assert ReleaseHolds([row], 0) == [];
  }

  const OVERDUE := REDEEMED.(payments := [PaymentOf(AttemptPending, false)], now := 46 * MINUTE)

  lemma TimePasses()
    ensures Run(SETTINGS, HOTEL, REDEEM + [Tick(46 * MINUTE)]) == OVERDUE
  {
    Redeems();
    RunTick(SETTINGS, HOTEL, REDEEM, 46 * MINUTE);
  }

  lemma Lapses()
    ensures ExpiredUnpaid(Run(SETTINGS, HOTEL, LAPSE))
  {
    TimePasses();
    RunSnoc(SETTINGS, HOTEL, REDEEM + [Tick(46 * MINUTE)], Expire(0));
    ExpiresUnpaid();
  }

  /** A late success confirms an expired booking whose room is still free. */
  lemma ConfirmsLate(db: Db)
    requires ExpiredUnpaid(db)
    ensures var s := ProcessNotification(db, NoticeOf(1)).0;
            && |s.reservations| == 1 && s.reservations[0].status == Confirmed && s.reservations[0].coinsRedeemed == 200
            && s.history == [HistoryEntry(0, PaymentPending, Expired), HistoryEntry(0, Expired, Confirmed)]
  {
    var item := Item(0, 0, 1, 1);
    AvailableIsFits(db, item, db.now);
    assert forall slot :: Covers(item, slot) ==> slot == SLOT;
    assert FreeRooms(db, SLOT, db.now) == 1;
  }

  /** A consistent state whose booking went through expiry has its redemption netted to 0, whatever the status now. */
  lemma ReleasedRedemptionIsNetted(s: Db)
    requires Inv(s) && |s.reservations| == 1 && s.reservations[0].coinsRedeemed == 200
    requires s.history == [HistoryEntry(0, PaymentPending, Expired), HistoryEntry(0, Expired, Confirmed)]
    ensures KindTotal(s.ledger, 0, Redeem) == -200 && KindTotal(s.ledger, 0, RedeemRefund) == 200
  {
    assert CoinRowOk(s, 0);
    assert s.history[..1] == [HistoryEntry(0, PaymentPending, Expired)];
    assert WasReleased(s.history[..1], 0);
    assert WasReleased(s.history, 0);
  }

  lemma LapsesAndConfirms() returns (end: Db)
    ensures Run(SETTINGS, HOTEL, LAPSE + [Notify(NoticeOf(1))]) == end
    ensures |end.reservations| == 1 && end.reservations[0].status == Confirmed && end.reservations[0].coinsRedeemed == 200
    ensures end.history == [HistoryEntry(0, PaymentPending, Expired), HistoryEntry(0, Expired, Confirmed)]
  {
    var lapsed := Run(SETTINGS, HOTEL, LAPSE);
    Lapses();
    ConfirmsLate(lapsed);
    end := ProcessNotification(lapsed, NoticeOf(1)).0;
    RunTo(SETTINGS, HOTEL, LAPSE, lapsed, Notify(NoticeOf(1)), end);
  }

  /** Expiry gave 200 coins back and the late confirmation takes none: the stay is confirmed with its redemption netted to 0. */
  lemma CoinsStayRefunded()
    ensures Initial(HOTEL)
    ensures var s := Run(SETTINGS, HOTEL, LAPSE + [Notify(NoticeOf(1))]);
            && |s.reservations| == 1 && s.reservations[0].status == Confirmed && s.reservations[0].coinsRedeemed == 200
            && KindTotal(s.ledger, 0, Redeem) == -200 && KindTotal(s.ledger, 0, RedeemRefund) == 200
  {
    var end := LapsesAndConfirms();
    RunKeepsInv(SETTINGS, HOTEL, LAPSE + [Notify(NoticeOf(1))]);
    ReleasedRedemptionIsNetted(end);
  }
}
