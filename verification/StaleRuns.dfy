/**
 * What goes wrong when an operation writes over what it has not read: once from every state in which the two
 * can overlap, and once from a state that the transactions of an opened hotel reach, with all the numbers.
 */
module StaleRuns {
  import opened Basics
  import opened Lifecycle
  import opened Tables
  import opened Inventory
  import opened Coins
  import opened Transactions
  import opened Invariants
  import opened PaymentProofs
  import opened CoinProofs
  import opened Runs
  import opened Counterexamples
  import opened LateCoins
  import opened StaleWrites
  import PaidRuns
  import StaleClock

  // ---- single late writes

  /** Accepting a booking that has expired confirms it without selling its rooms. */
  lemma LateAcceptanceSellsNothing(db: Db, id: nat, slot: Slot)
    requires StayInv(db) && id < |db.reservations| && db.reservations[id].status == Expired && slot in db.inventory
    ensures var db' := WriteBack(db, ToAccept(id));
            && slot in db'.inventory && db'.reservations[id].status == Confirmed
            && db'.inventory[slot].soldRooms == SoldBy(db'.reservations, slot) - Demand(db.reservations[id].items, slot)
  {
    assert HoldRowsMatch(db.reservations, db.holds, id);
    LoadUpdate(db.reservations, id, WriteBack(db, ToAccept(id)).reservations[id], slot, db.now);
  }

  /** Cancelling a booking that has been confirmed, as a pending one, leaves its rooms sold. */
  lemma LateCancellationKeepsRooms(db: Db, w: Reading, slot: Slot)
    requires StayInv(db) && w.ToCancel? && Addressed(db, w) && w.status == PaymentPending
    requires db.reservations[w.id].status == Confirmed && slot in db.inventory
    ensures var db' := WriteBack(db, w);
            && slot in db'.inventory && db'.reservations[w.id].status == Cancelled
            && db'.inventory[slot].soldRooms == SoldBy(db'.reservations, slot) + Demand(db.reservations[w.id].items, slot)
  {
    CancelWrites(db, w);
    LoadUpdate(db.reservations, w.id, WriteBack(db, w).reservations[w.id], slot, db.now);
  }

  /** Marking a cancelled booking a no-show counts it again without taking its rooms back. */
  lemma LateNoShowTakesNothing(db: Db, id: nat, slot: Slot)
    requires StayInv(db) && id < |db.reservations| && db.reservations[id].status == Cancelled && slot in db.inventory
    ensures var db' := WriteBack(db, ToMarkNoShow(id));
            && slot in db'.inventory && db'.reservations[id].status == NoShow
            && db'.inventory[slot].soldRooms == SoldBy(db'.reservations, slot) - Demand(db.reservations[id].items, slot)
  {
    LoadUpdate(db.reservations, id, WriteBack(db, ToMarkNoShow(id)).reservations[id], slot, db.now);
  }

  /** Every booking of a consistent state asks for rooms on some loaded night. */
  lemma FirstNight(db: Db, id: nat) returns (slot: Slot)
    requires StayInv(db) && id < |db.reservations|
    ensures slot in db.inventory && Demand(db.reservations[id].items, slot) >= 1
  {
    assert RowOk(db.inventory, db.reservations, id);
    var item := db.reservations[id].items[0];
    slot := Slot(item.roomType, item.checkIn);
    assert db.reservations[id].items == [item];
    DemandSingle(item, slot);
  }

  // ---- two ways to overlap

  /** One operation, with a transaction of somebody else between its reading and its writes. */
  function Around(first: Step, between: Step): seq<Move> { [] + [Begin(first)] + [Elsewhere(between)] + [Finish(0)] }

  lemma AroundWrites(cfg: Config, db: Db, first: Step, between: Step, w: Reading)
    requires ReadsFirst(first) && ReadFor(db, first) == Some(w) && !ReadsFirst(between)
    requires Addressed(Apply(cfg, db, between), w)
    ensures Play(cfg, db, Around(first, between)) == Some(Sys(WriteBack(Apply(cfg, db, between), w), [Request(w, true)]))
  {
    var begun := Sys(db, [Request(w, false)]);
    var s := Sys(Apply(cfg, db, between), [Request(w, false)]);
    assert Play(cfg, db, []) == Some(Sys(db, []));
    PlaySnoc(cfg, db, [], Sys(db, []), Begin(first));
    assert Next(cfg, Sys(db, []), Begin(first)).requests == begun.requests;
    PlaySnoc(cfg, db, [] + [Begin(first)], begun, Elsewhere(between));
    PlaySnoc(cfg, db, [] + [Begin(first)] + [Elsewhere(between)], s, Finish(0));
    assert s.requests[0 := Request(w, true)] == [Request(w, true)];
  }

  /** Two operations, both read before either writes. */
  function Overlapping(first: Step, second: Step): seq<Move> {
    [] + [Begin(first)] + [Begin(second)] + [Finish(1)] + [Finish(0)]
  }

  lemma BothRead(cfg: Config, db: Db, first: Step, second: Step, w: Reading, v: Reading)
    requires ReadsFirst(first) && ReadFor(db, first) == Some(w) && ReadsFirst(second) && ReadFor(db, second) == Some(v)
    ensures Play(cfg, db, [] + [Begin(first)] + [Begin(second)]) == Some(Sys(db, [Request(w, false), Request(v, false)]))
  {
    assert Play(cfg, db, []) == Some(Sys(db, []));
    PlaySnoc(cfg, db, [], Sys(db, []), Begin(first));
    assert Next(cfg, Sys(db, []), Begin(first)).requests == [Request(w, false)];
    PlaySnoc(cfg, db, [] + [Begin(first)], Sys(db, [Request(w, false)]), Begin(second));
    assert [Request(w, false)] + [Request(v, false)] == [Request(w, false), Request(v, false)];
  }

  lemma OverlappingWrite(cfg: Config, db: Db, first: Step, second: Step, w: Reading, v: Reading)
    requires ReadsFirst(first) && ReadFor(db, first) == Some(w) && ReadsFirst(second) && ReadFor(db, second) == Some(v)
    requires Addressed(db, v) && Addressed(WriteBack(db, v), w)
    ensures Play(cfg, db, Overlapping(first, second))
            == Some(Sys(WriteBack(WriteBack(db, v), w), [Request(w, true), Request(v, true)]))
  {
    var moves := [] + [Begin(first)] + [Begin(second)];
    var read := Sys(db, [Request(w, false), Request(v, false)]);
    var half := Sys(WriteBack(db, v), [Request(w, false), Request(v, true)]);
    BothRead(cfg, db, first, second, w, v);
    PlaySnoc(cfg, db, moves, read, Finish(1));
    assert read.requests[1 := Request(v, true)] == half.requests;
    PlaySnoc(cfg, db, moves + [Finish(1)], half, Finish(0));
    assert half.requests[0 := Request(w, true)] == [Request(w, true), Request(v, true)];
  }

  // ---- from every state in which the two can overlap

  /** An expiry between the reading and the writes of an acceptance: a confirmed stay that no counter shows. */
  lemma AcceptanceOverExpiry(cfg: Config, db: Db, id: nat)
    requires Inv(db) && id < |db.reservations| && Expirable(db.reservations[id], db.now)
    ensures var end := Play(cfg, db, Around(Accept(id), Expire(id)));
            && end.Some? && !StayInv(end.value.db) && !TrailInv(end.value.db)
            && id < |end.value.db.reservations| && end.value.db.reservations[id].status == Confirmed
  {
    var expired := Apply(cfg, db, Expire(id));
    StepKeepsInv(cfg, db, Expire(id));
    AroundWrites(cfg, db, Accept(id), Expire(id), ToAccept(id));
    var slot := FirstNight(expired, id);
    LateAcceptanceSellsNothing(expired, id, slot);
    StaleStatusBreaksTrail(expired, ToAccept(id));
  }

  lemma CancelReading(db: Db, id: nat, initiateRefund: bool) returns (w: Reading)
    requires id < |db.reservations| && CanTransition(db.reservations[id].status, Cancelled)
    ensures ReadFor(db, Cancel(id, initiateRefund)) == Some(w)
    ensures w.ToCancel? && w.id == id && w.status == db.reservations[id].status && WellRead(db, w) && Fresh(db, w)
  {
    w := ReadFor(db, Cancel(id, initiateRefund)).value;
  }

  lemma CancelledTooLate(confirmed: Db, w: Reading)
    requires Inv(confirmed) && w.ToCancel? && Addressed(confirmed, w)
    requires w.status == PaymentPending && confirmed.reservations[w.id].status == Confirmed
    ensures var end := WriteBack(confirmed, w);
            && !StayInv(end) && !TrailInv(end)
            && w.id < |end.reservations| && end.reservations[w.id].status == Cancelled
  {
    var slot := FirstNight(confirmed, w.id);
    LateCancellationKeepsRooms(confirmed, w, slot);
    StaleStatusBreaksTrail(confirmed, w);
    CancelWrites(confirmed, w);
  }

  /** A confirmation between the reading and the writes of a cancellation: a cancelled stay whose rooms stay sold. */
  lemma CancellationOverConfirmation(cfg: Config, db: Db, id: nat, confirmation: Step)
    requires Inv(db) && id < |db.reservations| && db.reservations[id].status == PaymentPending
    requires !ReadsFirst(confirmation)
    requires var confirmed := Apply(cfg, db, confirmation);
             id < |confirmed.reservations| && confirmed.reservations[id].status == Confirmed
    ensures var end := Play(cfg, db, Around(Cancel(id, true), confirmation));
            && end.Some? && !StayInv(end.value.db) && !TrailInv(end.value.db)
            && id < |end.value.db.reservations| && end.value.db.reservations[id].status == Cancelled
  {
    var w := CancelReading(db, id, true);
    StepKeepsInv(cfg, db, confirmation);
    CancelledTooLate(Apply(cfg, db, confirmation), w);
    AroundWrites(cfg, db, Cancel(id, true), confirmation, w);
  }

  lemma NotShownTooLate(cancelled: Db, id: nat)
    requires Inv(cancelled) && id < |cancelled.reservations| && cancelled.reservations[id].status == Cancelled
    ensures var end := WriteBack(cancelled, ToMarkNoShow(id));
            && !StayInv(end) && !TrailInv(end)
            && id < |end.reservations| && end.reservations[id].status == NoShow
  {
    var slot := FirstNight(cancelled, id);
    LateNoShowTakesNothing(cancelled, id, slot);
    StaleStatusBreaksTrail(cancelled, ToMarkNoShow(id));
  }

  /** A cancellation between the reading and the write of a no-show: a no-show that no counter shows. */
  lemma NoShowOverCancellation(cfg: Config, db: Db, id: nat)
    requires Inv(db) && id < |db.reservations| && db.reservations[id].status == Confirmed
    ensures var end := Play(cfg, db, Overlapping(MarkNoShow(id), Cancel(id, false)));
            && end.Some? && !StayInv(end.value.db) && !TrailInv(end.value.db)
            && id < |end.value.db.reservations| && end.value.db.reservations[id].status == NoShow
  {
    var w := CancelReading(db, id, false);
    WriteKeepsExactly(cfg, db, w);
    CancelWrites(db, w);
    OverlappingWrite(cfg, db, MarkNoShow(id), Cancel(id, false), ToMarkNoShow(id), w);
    NotShownTooLate(WriteBack(db, w), id);
  }

  /** Two refunds of all that remains, both read before either is written: more than the payment is given back. */
  lemma OverlappingRefunds(cfg: Config, db: Db, id: nat, payment: nat)
    requires AdminRefund(db, id, payment, None).Committed?
    ensures var refund := RefundPayment(id, payment, None);
            var end := Play(cfg, db, Overlapping(refund, refund));
            && end.Some? && payment < |db.payments| == |end.value.db.payments|
            && end.value.db.payments[payment].amount == db.payments[payment].amount
            && RefundedSum(end.value.db.refunds, payment) > db.payments[payment].amount
  {
    var refund := RefundPayment(id, payment, None);
    var w := ReadFor(db, refund).value;
    var once := WriteBack(db, w);
    OverlappingWrite(cfg, db, refund, refund, w, w);
    RefundSnoc(db.refunds, Refund(payment, w.amount), payment);
    RefundSnoc(once.refunds, Refund(payment, w.amount), payment);
  }

  /** Two adjustments, both read before either is written: the first written is lost from the balance, not from the ledger. */
  lemma OverlappingAdjustments(cfg: Config, db: Db, user: UserId, a: int, b: int)
    requires AccountsOk(db.balances, db.ledger) && AdjustBalance(db, user, a).Some? && AdjustBalance(db, user, b).Some?
    ensures var end := Play(cfg, db, Overlapping(AdjustCoins(user, a), AdjustCoins(user, b)));
            && end.Some? && user in end.value.db.balances
            && end.value.db.balances[user] == UserTotal(end.value.db.ledger, user) - b != UserTotal(end.value.db.ledger, user)
  {
    var balance := db.balances[user];
    var first, second := ToAdjust(user, balance, a), ToAdjust(user, balance, b);
    var once := WriteBack(db, second);
    OverlappingWrite(cfg, db, AdjustCoins(user, a), AdjustCoins(user, b), first, second);
    LedgerSnoc(db.ledger, CoinEntry(user, Adjust, b, balance + b, None), user, 0, Adjust);
    LedgerSnoc(once.ledger, CoinEntry(user, Adjust, a, balance + a, None), user, 0, Adjust);
  }

  /** Two bookings, of which both read the balance before either writes it. */
  function BothRedeem(a: BookingRequest, b: BookingRequest): seq<Move> {
    [] + [BeginPosting(Create(a))] + [BeginPosting(Create(b))] + [Finish(0)] + [Finish(1)]
  }

  /** One reading of the balance, two redemptions: the guest pays for the second booking only. */
  lemma OverlappingRedemptions(cfg: Config, db: Db, a: BookingRequest, b: BookingRequest)
    requires AccountsOk(db.balances, db.ledger) && a.user == b.user && a.user in db.balances
    requires 0 < a.coinsRedeemed <= db.balances[a.user] && 0 < b.coinsRedeemed <= db.balances[a.user]
    requires CreateBooking(cfg, db, a).Committed?
    requires CreateBooking(cfg, Trusting(Apply(cfg, db, Create(a)), a.user, db.balances[a.user]), b).Committed?
    ensures var end := Play(cfg, db, BothRedeem(a, b));
            && end.Some? && |end.value.db.reservations| == |db.reservations| + 2 && a.user in end.value.db.balances
            && end.value.db.balances[a.user] == db.balances[a.user] - b.coinsRedeemed
            && UserTotal(end.value.db.ledger, a.user) == db.balances[a.user] - b.coinsRedeemed - a.coinsRedeemed
            && !AccountsOk(end.value.db.balances, end.value.db.ledger)
  {
    var user, balance := a.user, db.balances[a.user];
    var once := Apply(cfg, db, Create(a));
    var twice := ApplyOver(cfg, once, Create(b), user, balance);
    BothRedeemPlay(cfg, db, a, b);
    RedemptionPosts(cfg, db, a);
    RedemptionPosts(cfg, Trusting(once, user, balance), b);
    LedgerSnoc(db.ledger, once.ledger[|db.ledger|], user, 0, Redeem);
    LedgerSnoc(once.ledger, twice.ledger[|once.ledger|], user, 0, Redeem);
  }

  lemma RedemptionPosts(cfg: Config, db: Db, req: BookingRequest)
    requires CreateBooking(cfg, db, req).Committed? && req.coinsRedeemed > 0
    ensures req.user in db.balances
    ensures var after := CreateBooking(cfg, db, req).db;
            && |after.reservations| == |db.reservations| + 1 && |after.ledger| == |db.ledger| + 1
            && after.ledger == db.ledger + [after.ledger[|db.ledger|]]
            && after.ledger[|db.ledger|].user == req.user && after.ledger[|db.ledger|].amount == 0 - req.coinsRedeemed
            && after.balances == db.balances[req.user := db.balances[req.user] - req.coinsRedeemed]
  {}

  lemma BothReadTheBalance(cfg: Config, db: Db, a: BookingRequest, b: BookingRequest)
    requires a.user == b.user && a.user in db.balances
    requires 0 < a.coinsRedeemed <= db.balances[a.user] && 0 < b.coinsRedeemed <= db.balances[a.user]
    ensures var user, balance := a.user, db.balances[a.user];
            Play(cfg, db, [] + [BeginPosting(Create(a))] + [BeginPosting(Create(b))])
            == Some(Sys(db, [Posting(Create(a), user, balance, false), Posting(Create(b), user, balance, false)]))
  {
    var p, q := Posting(Create(a), a.user, db.balances[a.user], false), Posting(Create(b), a.user, db.balances[a.user], false);
    assert Play(cfg, db, []) == Some(Sys(db, []));
    PlaySnoc(cfg, db, [], Sys(db, []), BeginPosting(Create(a)));
    assert Next(cfg, Sys(db, []), BeginPosting(Create(a))).requests == [p];
    PlaySnoc(cfg, db, [] + [BeginPosting(Create(a))], Sys(db, [p]), BeginPosting(Create(b)));
    assert [p] + [q] == [p, q];
  }

  lemma BothRedeemPlay(cfg: Config, db: Db, a: BookingRequest, b: BookingRequest)
    requires a.user == b.user && a.user in db.balances
    requires 0 < a.coinsRedeemed <= db.balances[a.user] && 0 < b.coinsRedeemed <= db.balances[a.user]
    requires CreateBooking(cfg, db, a).Committed?
    ensures var user, balance := a.user, db.balances[a.user];
            var twice := ApplyOver(cfg, Apply(cfg, db, Create(a)), Create(b), user, balance);
            Play(cfg, db, BothRedeem(a, b))
            == Some(Sys(twice, [Posting(Create(a), user, balance, true), Posting(Create(b), user, balance, true)]))
  {
    var user, balance := a.user, db.balances[a.user];
    var p, q := Posting(Create(a), user, balance, false), Posting(Create(b), user, balance, false);
    var once := Apply(cfg, db, Create(a));
    RedemptionPosts(cfg, db, a);
    FreshPostingIsPlain(cfg, db, Create(a), user);
    var moves := [] + [BeginPosting(Create(a))] + [BeginPosting(Create(b))];
    BothReadTheBalance(cfg, db, a, b);
    var paid, both := Posting(Create(a), user, balance, true), Posting(Create(b), user, balance, true);
    PlaySnoc(cfg, db, moves, Sys(db, [p, q]), Finish(0));
    assert [p, q][0 := paid] == [paid, q];
    PlaySnoc(cfg, db, moves + [Finish(0)], Sys(once, [paid, q]), Finish(1));
    assert [paid, q][1 := both] == [paid, both];
  }

  // ---- from reachable states of a hotel with one room

  /** The guest's hold has lapsed, and expires before the administrator's acceptance is written. */
  lemma AcceptanceRun()
    ensures var start := Run(SETTINGS, HOTEL, StaleClock.BOOK_AND_WAIT + [Tick(2 * MINUTE)]);
            var end := Play(SETTINGS, start, Around(Accept(0), Expire(0)));
            && Initial(HOTEL) && Inv(start) && end.Some? && !StayInv(end.value.db) && !TrailInv(end.value.db)
  {
    StaleClock.BookedIsReached();
    RunKeepsInv(SETTINGS, HOTEL, StaleClock.BOOK_AND_WAIT + [Tick(2 * MINUTE)]);
    AcceptanceOverExpiry(SETTINGS, StaleClock.LAPSED, 0);
  }

  /** The guest pays before the administrator's cancellation is written. */
  lemma CancellationRun()
    ensures var start := Run(SETTINGS, HOTEL, PaidRuns.ATTEMPT);
            var end := Play(SETTINGS, start, Around(Cancel(0, true), Notify(PaidRuns.NoticeOf(1))));
            && Initial(HOTEL) && Inv(start) && end.Some? && !StayInv(end.value.db) && !TrailInv(end.value.db)
  {
    PaidRuns.Attempts();
    RunKeepsInv(SETTINGS, HOTEL, PaidRuns.ATTEMPT);
    PaidRuns.ConfirmsAttempt();
    CancellationOverConfirmation(SETTINGS, PaidRuns.ATTEMPTED, 0, Notify(PaidRuns.NoticeOf(1)));
  }

  /** The stay is cancelled before it is marked a no-show. */
  lemma NoShowRun()
    ensures var start := Run(SETTINGS, HOTEL, PaidRuns.ATTEMPT + [Notify(PaidRuns.NoticeOf(1))]);
            var end := Play(SETTINGS, start, Overlapping(MarkNoShow(0), Cancel(0, false)));
            && Initial(HOTEL) && Inv(start) && end.Some? && !StayInv(end.value.db) && !TrailInv(end.value.db)
  {
    PaidRuns.Confirms();
    RunKeepsInv(SETTINGS, HOTEL, PaidRuns.ATTEMPT + [Notify(PaidRuns.NoticeOf(1))]);
    NoShowOverCancellation(SETTINGS, PaidRuns.CONFIRMED_STAY, 0);
  }

  /** The same payment is refunded by two administrators. */
  lemma RefundRun()
    ensures var start := Run(SETTINGS, HOTEL, PaidRuns.ATTEMPT + [Notify(PaidRuns.NoticeOf(1))]);
            var end := Play(SETTINGS, start, Overlapping(RefundPayment(0, 0, None), RefundPayment(0, 0, None)));
            && Initial(HOTEL) && Inv(start) && end.Some? && |end.value.db.payments| == 1
            && RefundedSum(end.value.db.refunds, 0) > end.value.db.payments[0].amount
  {
    PaidRuns.Confirms();
    RunKeepsInv(SETTINGS, HOTEL, PaidRuns.ATTEMPT + [Notify(PaidRuns.NoticeOf(1))]);
    OverlappingRefunds(SETTINGS, PaidRuns.CONFIRMED_STAY, 0, 0);
  }

  /** A guest is given 100 and 50 coins at the same time, and has 100. */
  lemma AdjustmentRun()
    ensures var end := Play(SETTINGS, HOTEL, Overlapping(AdjustCoins(0, 100), AdjustCoins(0, 50)));
            && Initial(HOTEL) && end.Some? && 0 in end.value.db.balances
            && end.value.db.balances[0] == UserTotal(end.value.db.ledger, 0) - 50
  {
    InitialInv(HOTEL);
    OverlappingAdjustments(SETTINGS, HOTEL, 0, 100, 50);
  }

  // ---- coins spent twice

  /** The hotel with one more room. */
  const TWO_ROOMS := HOTEL.(inventory := map[SLOT := InventoryRow(2, 0, 0)])
  const ALL_COINS := RequestOf(0).(coinsRedeemed := 500)
  const RICH := TWO_ROOMS.(balances := HOTEL.balances[0 := 500], ledger := [CoinEntry(0, Adjust, 500, 500, None)])

  lemma BooksForCoins(db: Db)
    requires SLOT in db.inventory && FreeRooms(db, SLOT, db.now) >= 1 && 0 in db.balances && db.balances[0] >= 500
    ensures CreateBooking(SETTINGS, db, ALL_COINS).Committed?
  {
    assert EachNight(0, 1) == [0];
    CheckAvailabilityExact(db, 0, [0], 1, db.now);
  }

  const ONE_PAID := RICH.(
    reservations := [NewReservation(SETTINGS, ALL_COINS, 0)], holds := [RowOf(0, 45 * MINUTE)],
    balances := HOTEL.balances[0 := 0], ledger := RICH.ledger + [CoinEntry(0, Redeem, -500, 0, Some(0))])

  lemma GetsRich()
    ensures Run(SETTINGS, TWO_ROOMS, [AdjustCoins(0, 500)]) == RICH
  {
    RunOne(SETTINGS, TWO_ROOMS, AdjustCoins(0, 500));
    assert TWO_ROOMS.ledger + [CoinEntry(0, Adjust, 500, 500, None)] == RICH.ledger;
  }

  lemma RichIsConsistent()
    ensures Initial(TWO_ROOMS) && AccountsOk(RICH.balances, RICH.ledger)
  {
    RunKeepsInv(SETTINGS, TWO_ROOMS, [AdjustCoins(0, 500)]);
    GetsRich();
  }

  lemma FirstIsPaid()
    ensures Apply(SETTINGS, RICH, Create(ALL_COINS)) == ONE_PAID
  {
    BooksForCoins(RICH);
    assert EachNight(0, 1) == [0];
    assert BuildHoldRows(0, Item(0, 0, 1, 1), 45 * MINUTE) == [RowOf(0, 45 * MINUTE)];
  }

  lemma OneRoomIsLeft()
    ensures FreeRooms(Trusting(ONE_PAID, 0, 500), SLOT, 0) == 1
  {
    TwoHolds(ONE_PAID.reservations, RowOf(0, 45 * MINUTE), RowOf(0, 45 * MINUTE), 0);
  }

  /** A guest with 500 coins spends them on two bookings at once, and the account still reads 0. */
  lemma RedemptionRun()
    ensures Initial(TWO_ROOMS)
    ensures var start := Run(SETTINGS, TWO_ROOMS, [AdjustCoins(0, 500)]);
            var end := Play(SETTINGS, start, BothRedeem(ALL_COINS, ALL_COINS));
            && end.Some? && |end.value.db.reservations| == 2 && 0 in end.value.db.balances
            && end.value.db.balances[0] == 0 && UserTotal(end.value.db.ledger, 0) == -500
  {
    GetsRich();
    RichIsConsistent();
    BooksForCoins(RICH);
    FirstIsPaid();
    OneRoomIsLeft();
    BooksForCoins(Trusting(ONE_PAID, 0, 500));
    OverlappingRedemptions(SETTINGS, RICH, ALL_COINS, ALL_COINS);
  }
}
