/**
 * One committed effect per transaction of the booking, payment and admin services: from the rows it
 * starts from and the clock it reads to the rows it leaves behind, which an error leaves alone.
 */
module Transactions {
  import opened Basics
  import opened Lifecycle
  import opened Tables
  import opened Inventory
  import opened Coins

  datatype TxError = NotFound | BadRequest | Conflict

  datatype Tx<+T> = Committed(db: Db, value: T) | RolledBack(error: TxError)

  const HOLD_EXTEND_THRESHOLD_MS: Time := 20 * 60 * 1000
  const HOLD_EXTEND_BY_MS: Time := 15 * 60 * 1000
  const MAX_HOLD_MS: Time := 60 * 60 * 1000

  function Record(history: seq<HistoryEntry>, reservation: nat, from: ReservationStatus, to: ReservationStatus): seq<HistoryEntry> {
    history + [HistoryEntry(reservation, from, to)]
  }

  // ---- bookings.service.ts

  /** A validated request with its frozen price. */
  datatype BookingRequest = BookingRequest(
    user: UserId, item: Item, totalAmount: nat, currency: string, coinsRedeemed: nat, coinsEarnable: nat)

  function NewReservation(cfg: Config, req: BookingRequest, now: Time): Reservation {
    Reservation(req.user, [req.item], PaymentPending, req.totalAmount, req.currency,
                now, Some(now + cfg.holdTtlMs), None, req.coinsRedeemed, req.coinsEarnable, None)
  }

  function CreateBooking(cfg: Config, db: Db, req: BookingRequest): Tx<nat> {
    var item := req.item;
    if item.quantity < 1 || item.checkOut <= item.checkIn then RolledBack(BadRequest)
    else if req.user !in db.balances then RolledBack(NotFound)
    else if !CheckAvailability(db, item.roomType, EachNight(item.checkIn, item.checkOut), item.quantity, db.now).Available? then
      RolledBack(Conflict)
    else
      var id := |db.reservations|;
      var r := NewReservation(cfg, req, db.now);
      var booked := db.(reservations := db.reservations + [r],
                        holds := db.holds + BuildHoldRows(id, item, db.now + cfg.holdTtlMs));
      match RedeemForBooking(booked, req.user, id, req.coinsRedeemed)
      case None => RolledBack(BadRequest)
      case Some(paid) => Committed(paid, id)
  }

  /** The value is what the guest is told: the present or the new expiry, or None. */
  function TryExtendHold(db: Db, user: UserId, id: nat): Tx<Option<Time>> {
    if id >= |db.reservations| || db.reservations[id].user != user then RolledBack(NotFound)
    else
      var r := db.reservations[id];
      if r.status != PaymentPending || r.holdExpiresAt.None? then Committed(db, None)
      else
        var expiresAt := r.holdExpiresAt.value;
        if expiresAt - db.now > HOLD_EXTEND_THRESHOLD_MS then Committed(db, Some(expiresAt))
        else
          var proposed := Min(expiresAt + HOLD_EXTEND_BY_MS, r.createdAt + MAX_HOLD_MS);
          if proposed <= db.now then Committed(db, None)
          else
            Committed(
              db.(reservations := db.reservations[id := r.(holdExpiresAt := Some(proposed))],
                  holds := RestampHolds(db.holds, id, proposed)),
              Some(proposed))
  }

  predicate Expirable(r: Reservation, now: Time) {
    r.status == PaymentPending && r.holdExpiresAt.Some? && r.holdExpiresAt.value <= now
  }

  function ExpireReservation(db: Db, id: nat): (Db, bool) {
    if id >= |db.reservations| || !Expirable(db.reservations[id], db.now) then (db, false)
    else
      var r := db.reservations[id];
      var released := db.(reservations := db.reservations[id := r.(status := Expired)],
                          holds := ReleaseHolds(db.holds, id));
      var refunded := RefundRedemption(released, id);
      (refunded.(history := Record(refunded.history, id, r.status, Expired)), true)
  }

  function CompleteStay(db: Db, id: nat): (Db, bool) {
    if id >= |db.reservations| || db.reservations[id].status != Confirmed then (db, false)
    else
      var r := db.reservations[id];
      (db.(reservations := db.reservations[id := r.(status := Completed)],
           history := Record(db.history, id, r.status, Completed)), true)
  }

  // ---- payment-sessions.service.ts

  predicate LiveAttempt(p: Payment) {
    p.status == AttemptPending || p.status == Authorized
  }

  predicate Payable(cfg: Config, r: Reservation, now: Time) {
    r.status == PaymentPending && r.holdExpiresAt.Some? && r.holdExpiresAt.value - now > cfg.minHoldRemainingMs
  }

  /** The newest live attempt of a reservation. */
  function FindLiveAttempt(payments: seq<Payment>, reservation: nat): Option<nat> {
    if |payments| == 0 then None
    else if payments[|payments| - 1].reservation == reservation && LiveAttempt(payments[|payments| - 1]) then
      Some(|payments| - 1)
    else FindLiveAttempt(payments[..|payments| - 1], reservation)
  }

  /** Phase 1, before the remote call. The value is the id of the attempt to open a session for. */
  function PrepareAttempt(cfg: Config, db: Db, user: UserId, id: nat): Tx<nat> {
    if id >= |db.reservations| || db.reservations[id].user != user then RolledBack(NotFound)
    else if !Payable(cfg, db.reservations[id], db.now) then RolledBack(Conflict)
    else
      var r := db.reservations[id];
      var attempt := Payment(id, r.totalAmount, r.currency, AttemptPending, false, db.now);
      match FindLiveAttempt(db.payments, id)
      case None => Committed(db.(payments := db.payments + [attempt]), |db.payments|)
      case Some(p) =>
        FindLiveAttemptSound(db.payments, id);
        var existing := db.payments[p];
        if existing.createdAt + cfg.staleAttemptMs <= db.now || r.totalAmount != existing.amount then
          Committed(db.(payments := db.payments[p := existing.(status := Failed)] + [attempt]), |db.payments|)
        else Committed(db, p)
  }

  lemma {:induction false} FindLiveAttemptSound(payments: seq<Payment>, reservation: nat)
    ensures var found := FindLiveAttempt(payments, reservation);
            && (found.Some? ==> found.value < |payments| && payments[found.value].reservation == reservation
                                && LiveAttempt(payments[found.value]))
            && (found.None? ==> forall p | 0 <= p < |payments| :: payments[p].reservation == reservation ==> !LiveAttempt(payments[p]))
  {
    if |payments| > 0 {
      FindLiveAttemptSound(payments[..|payments| - 1], reservation);
    }
  }

  /** Phase 3: the value tells whether the session may be handed out. */
  function PublishOrAbort(cfg: Config, db: Db, payment: nat): (Db, bool) {
    if payment >= |db.payments| || db.payments[payment].reservation >= |db.reservations| then (db, false)
    else
      var p := db.payments[payment];
      if p.status != AttemptPending then (db, false)
      else if Payable(cfg, db.reservations[p.reservation], db.now) then (db, true)
      else (db.(payments := db.payments[payment := p.(status := Failed)]), false)
  }

  /** Phase 2 came back with a rejection. */
  function FailAttempt(db: Db, payment: nat): Db {
    if payment < |db.payments| && db.payments[payment].status == AttemptPending
    then db.(payments := db.payments[payment := db.payments[payment].(status := Failed)])
    else db
  }

  // ---- payment-confirmation.service.ts

  datatype Notification = Notification(
    eventId: nat, reservation: nat, payment: nat, amount: int, currency: string, succeeded: bool)

  datatype RefundReason = DuplicatePayment | LateSuccessOnFailedAttempt | NoInventoryAtConfirmation

  datatype RejectReason = UnknownReservation | PaymentNotOfReservation | AmountMismatch | NotConfirmable | NoItems

  /** The terminal answer to a notification: HTTP 200, 202 and 422. */
  datatype Outcome =
    | Accepted(reservationStatus: ReservationStatus, paymentStatus: PaymentStatus)
    | RefundDue(reservationStatus: ReservationStatus, reason: RefundReason)
    | Rejected(why: RejectReason)

  function Confirm(db: Db, id: nat): Db
    requires id < |db.reservations|
    requires CanTransition(db.reservations[id].status, Confirmed)
  {
    var r := db.reservations[id];
    db.(reservations := db.reservations[id := r.(status := Confirmed, confirmedAt := Some(db.now), holdExpiresAt := None)],
        history := Record(db.history, id, r.status, Confirmed))
  }

  /** Confirms the reservation with this payment, whose refund flag is left alone. */
  function MarkConfirmed(db: Db, id: nat, payment: nat): Db
    requires id < |db.reservations| && payment < |db.payments|
    requires CanTransition(db.reservations[id].status, Confirmed)
  {
    Confirm(db, id).(payments := db.payments[payment := db.payments[payment].(status := Captured)])
  }

  /** Each held quantity moves from the hold table to the counter of its night. */
  function ConvertHoldsToSold(db: Db, id: nat): Db {
    db.(inventory := SellHolds(db.inventory, HoldsOf(db.holds, id)),
        holds := ReleaseHolds(db.holds, id))
  }

  /** The payment is kept on record as paid and due back to the guest. */
  function CaptureForRefund(db: Db, payment: nat): Db
    requires payment < |db.payments|
  {
    db.(payments := db.payments[payment := db.payments[payment].(status := Captured, refundRequired := true)])
  }

  /** Each item passes the availability check on its own. */
  predicate ItemsAvailable(db: Db, items: seq<Item>) {
    forall i | 0 <= i < |items| ::
      CheckAvailability(db, items[i].roomType, EachNight(items[i].checkIn, items[i].checkOut), items[i].quantity, db.now).Available?
  }

  function ConfirmFromItems(db: Db, id: nat, payment: nat): (Db, Outcome)
    requires id < |db.reservations| && payment < |db.payments|
    requires CanTransition(db.reservations[id].status, Confirmed)
  {
    var r := db.reservations[id];
    if |r.items| == 0 then (db, Rejected(NoItems))
    else if !ItemsAvailable(db, r.items) then
      (CaptureForRefund(db, payment), RefundDue(r.status, NoInventoryAtConfirmation))
    else
      var sold := db.(inventory := SellItems(db.inventory, r.items), holds := ReleaseHolds(db.holds, id));
      (MarkConfirmed(sold, id, payment), Accepted(Confirmed, Captured))
  }

  predicate OnTime(db: Db, id: nat)
    requires id < |db.reservations|
  {
    var r := db.reservations[id];
    r.status == PaymentPending && HoldLive(r, db.now) && |HoldsOf(db.holds, id)| > 0
  }

  function ApplySuccess(db: Db, id: nat, payment: nat): (Db, Outcome)
    requires id < |db.reservations| && payment < |db.payments|
  {
    var r, p := db.reservations[id], db.payments[payment];
    if r.status == Confirmed then
      if p.status == Captured then (db, Accepted(Confirmed, Captured))
      else (CaptureForRefund(db, payment), RefundDue(r.status, DuplicatePayment))
    else if r.status != PaymentPending && r.status != Expired then (db, Rejected(NotConfirmable))
    else if p.status == Failed then
      (CaptureForRefund(db, payment), RefundDue(r.status, LateSuccessOnFailedAttempt))
    else if OnTime(db, id) then
      (MarkConfirmed(ConvertHoldsToSold(db, id), id, payment), Accepted(Confirmed, Captured))
    else ConfirmFromItems(db, id, payment)
  }

  function ApplyFailure(db: Db, id: nat, payment: nat): (Db, Outcome)
    requires id < |db.reservations| && payment < |db.payments|
  {
    var r, p := db.reservations[id], db.payments[payment];
    if p.status == Captured then (db, Accepted(r.status, Captured))
    else (db.(payments := db.payments[payment := p.(status := Failed)]), Accepted(r.status, Failed))
  }

  function ProcessNotification(db: Db, n: Notification): (Db, Outcome) {
    if n.reservation >= |db.reservations| then (db, Rejected(UnknownReservation))
    else if n.payment >= |db.payments| || db.payments[n.payment].reservation != n.reservation then
      (db, Rejected(PaymentNotOfReservation))
    else if n.amount != db.payments[n.payment].amount || n.currency != db.payments[n.payment].currency then
      (db, Rejected(AmountMismatch))
    else if n.succeeded then ApplySuccess(db, n.reservation, n.payment)
    else ApplyFailure(db, n.reservation, n.payment)
  }

  // ---- admin-bookings.service.ts

  function AdminAccept(db: Db, id: nat): Tx<()> {
    if id >= |db.reservations| then RolledBack(NotFound)
    else if db.reservations[id].status != PaymentPending then RolledBack(BadRequest)
    else Committed(Confirm(ConvertHoldsToSold(db, id), id), ())
  }

  /** Flags every payment of a reservation that still holds the guest's money. */
  function FlagForRefund(payments: seq<Payment>, reservation: nat): (flagged: seq<Payment>)
    ensures |flagged| == |payments|
  {
    seq(|payments|, i requires 0 <= i < |payments| =>
      var p := payments[i];
      if p.reservation == reservation && (p.status == Captured || p.status == PartiallyRefunded)
      then p.(refundRequired := true) else p)
  }

  function AdminCancel(db: Db, id: nat, initiateRefund: bool): Tx<()> {
    if id >= |db.reservations| then RolledBack(NotFound)
    else if !CanTransition(db.reservations[id].status, Cancelled) then RolledBack(Conflict)
    else
      var r := db.reservations[id];
      var freed := db.(
        holds := if r.status == PaymentPending then ReleaseHolds(db.holds, id) else db.holds,
        inventory := if r.status == Confirmed then RestoreItems(db.inventory, r.items) else db.inventory,
        reservations := db.reservations[id := r.(status := Cancelled, holdExpiresAt := None)]);
      var refunded := RefundRedemption(freed, id);
      Committed(
        refunded.(payments := if initiateRefund then FlagForRefund(refunded.payments, id) else refunded.payments,
                  history := Record(refunded.history, id, r.status, Cancelled)),
        ())
  }

  function RefundedSum(refunds: seq<Refund>, payment: nat): int {
    if |refunds| == 0 then 0
    else RefundedSum(refunds[..|refunds| - 1], payment)
         + if refunds[|refunds| - 1].payment == payment then refunds[|refunds| - 1].amount else 0
  }

  /** The value is the amount refunded; a missing request amount refunds all that remains. */
  function AdminRefund(db: Db, id: nat, payment: nat, requested: Option<int>): Tx<int> {
    if id >= |db.reservations| then RolledBack(NotFound)
    else if payment >= |db.payments| || db.payments[payment].reservation != id then RolledBack(NotFound)
    else
      var r, p := db.reservations[id], db.payments[payment];
      if p.status != Captured && p.status != PartiallyRefunded then RolledBack(BadRequest)
      else
        var remaining := p.amount - RefundedSum(db.refunds, payment);
        if remaining <= 0 then RolledBack(BadRequest)
        else
          var amount := if requested.Some? then requested.value else remaining;
          if amount <= 0 || amount > remaining then RolledBack(BadRequest)
          else
            var full := amount >= remaining;
            Committed(
              db.(refunds := db.refunds + [Refund(payment, amount)],
                  payments := db.payments[payment := p.(status := if full then Refunded else PartiallyRefunded,
                                                        refundRequired := !full)],
                  history := Record(db.history, id, r.status, r.status)),
              amount)
  }

  function AdminNoShow(db: Db, id: nat): Tx<()> {
    if id >= |db.reservations| then RolledBack(NotFound)
    else if !CanTransition(db.reservations[id].status, NoShow) then RolledBack(Conflict)
    else
      var r := db.reservations[id];
      Committed(
        db.(reservations := db.reservations[id := r.(status := NoShow)],
            history := Record(db.history, id, r.status, NoShow)),
        ())
  }

  // ---- runs

  /** One committed transaction, or the clock moving on. */
  datatype Step =
    | Create(req: BookingRequest)
    | Extend(user: UserId, id: nat)
    | Expire(id: nat)
    | Complete(id: nat)
    | CreditEarn(id: nat)
    | Prepare(user: UserId, id: nat)
    | Publish(payment: nat)
    | FailSession(payment: nat)
    | Notify(n: Notification)
    | Accept(id: nat)
    | Cancel(id: nat, initiateRefund: bool)
    | RefundPayment(id: nat, payment: nat, requested: Option<int>)
    | MarkNoShow(id: nat)
    | AdjustCoins(user: UserId, amount: int)
    | Tick(elapsed: nat)

  function Commit<T>(db: Db, tx: Tx<T>): Db {
    if tx.Committed? then tx.db else db
  }

  function Apply(cfg: Config, db: Db, step: Step): Db {
    match step
    case Create(req) => Commit(db, CreateBooking(cfg, db, req))
    case Extend(user, id) => Commit(db, TryExtendHold(db, user, id))
    case Expire(id) => ExpireReservation(db, id).0
    case Complete(id) => CompleteStay(db, id).0
    case CreditEarn(id) => CreditEarnOnComplete(db, id).0
    case Prepare(user, id) => Commit(db, PrepareAttempt(cfg, db, user, id))
    case Publish(payment) => PublishOrAbort(cfg, db, payment).0
    case FailSession(payment) => FailAttempt(db, payment)
    case Notify(n) => ProcessNotification(db, n).0
    case Accept(id) => Commit(db, AdminAccept(db, id))
    case Cancel(id, initiateRefund) => Commit(db, AdminCancel(db, id, initiateRefund))
    case RefundPayment(id, payment, requested) => Commit(db, AdminRefund(db, id, payment, requested))
    case MarkNoShow(id) => Commit(db, AdminNoShow(db, id))
    case AdjustCoins(user, amount) => var adjusted := AdjustBalance(db, user, amount); if adjusted.Some? then adjusted.value else db
    case Tick(elapsed) => db.(now := db.now + elapsed)
  }

  /** The rows after a whole run of transactions. */
  function Run(cfg: Config, db: Db, steps: seq<Step>): Db {
    if |steps| == 0 then db else Apply(cfg, Run(cfg, db, steps[..|steps| - 1]), steps[|steps| - 1])
  }

  lemma RunSnoc(cfg: Config, db: Db, steps: seq<Step>, step: Step)
    ensures Run(cfg, db, steps + [step]) == Apply(cfg, Run(cfg, db, steps), step)
  {
    assert (steps + [step])[..|steps|] == steps;
  }

  lemma RunTo(cfg: Config, db: Db, steps: seq<Step>, s: Db, step: Step, s': Db)
    requires Run(cfg, db, steps) == s && Apply(cfg, s, step) == s'
    ensures Run(cfg, db, steps + [step]) == s'
  {
    RunSnoc(cfg, db, steps, step);
  }

  lemma RunTick(cfg: Config, db: Db, steps: seq<Step>, elapsed: nat)
    ensures Run(cfg, db, steps + [Tick(elapsed)]) == Run(cfg, db, steps).(now := Run(cfg, db, steps).now + elapsed)
  {
    RunSnoc(cfg, db, steps, Tick(elapsed));
  }

  /** Running on from where a run ended is running the two in a row. */
  lemma {:induction false} RunAppend(cfg: Config, db: Db, first: seq<Step>, second: seq<Step>)
    ensures Run(cfg, db, first + second) == Run(cfg, Run(cfg, db, first), second)
  {
    if |second| == 0 {
      assert first + second == first;
    } else {
      var front, last := second[..|second| - 1], second[|second| - 1];
      RunAppend(cfg, db, first, front);
      RunSnoc(cfg, db, first + front, last);
      assert first + second == (first + front) + [last];
    }
  }

  lemma RunOne(cfg: Config, db: Db, step: Step)
    ensures Run(cfg, db, [step]) == Apply(cfg, db, step)
  {
    assert Run(cfg, db, []) == db;
    RunSnoc(cfg, db, [], step);
    assert [] + [step] == [step];
  }
}
