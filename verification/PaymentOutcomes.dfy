/** What sessions, payment events, cancellations and refunds come to for the guest's money, column by column. */
module PaymentOutcomes {
  import opened Basics
  import opened Lifecycle
  import opened Tables
  import opened Inventory
  import opened Transactions
  import opened Invariants
  import opened PaymentProofs
  import opened TrailProofs
  import opened StaySteps
  import opened Runs
  import opened StaleWrites
  import opened BookingOutcomes

  // ---- sessions

  /** A checkout is prepared exactly for a guest's own pending booking whose hold outlasts the margin. */
  lemma PreparationNeedsTheHold(cfg: Config, db: Db, user: UserId, id: nat)
    ensures var tx := PrepareAttempt(cfg, db, user, id);
            && (tx == RolledBack(NotFound) <==> id >= |db.reservations| || db.reservations[id].user != user)
            && (tx.RolledBack? ==> tx.error == NotFound || tx.error == Conflict)
            && (tx.Committed? <==>
                  && id < |db.reservations| && db.reservations[id].user == user && db.reservations[id].status == PaymentPending
                  && db.reservations[id].holdExpiresAt.Some? && db.reservations[id].holdExpiresAt.value > db.now + cfg.minHoldRemainingMs)
            && (tx.Committed? ==> tx.db == db.(payments := tx.db.payments))
  {}

  /** A pending payment over what the booking costs. */
  predicate FreshAttempt(p: Payment, id: nat, r: Reservation, now: Time) {
    p == Payment(id, r.totalAmount, r.currency, AttemptPending, false, now)
  }

  /** A young live attempt is handed out again; an old one fails and a new one takes its place. */
  lemma PreparationPicksTheAttempt(cfg: Config, db: Db, user: UserId, id: nat, p: nat)
    requires PaymentsOk(db.reservations, db.payments) && PrepareAttempt(cfg, db, user, id).Committed?
    requires p < |db.payments| && db.payments[p].reservation == id
    requires db.payments[p].status == AttemptPending || db.payments[p].status == Authorized
    ensures var tx := PrepareAttempt(cfg, db, user, id);
            if db.now < db.payments[p].createdAt + cfg.staleAttemptMs then tx.value == p && tx.db == db
            else
              && tx.value == |db.payments| && |tx.db.payments| == tx.value + 1
              && FreshAttempt(tx.db.payments[tx.value], id, db.reservations[id], db.now)
              && tx.db.payments[..tx.value] == db.payments[p := db.payments[p].(status := Failed)]
  {
    FindLiveAttemptSound(db.payments, id);
    assert FindLiveAttempt(db.payments, id) == Some(p);
  }

  /** A booking without a live attempt gets a new one, and no payment changes. */
  lemma PreparationOpensAnAttempt(cfg: Config, db: Db, user: UserId, id: nat)
    requires PrepareAttempt(cfg, db, user, id).Committed?
    requires forall p | 0 <= p < |db.payments| && db.payments[p].reservation == id ::
               db.payments[p].status != AttemptPending && db.payments[p].status != Authorized
    ensures var tx := PrepareAttempt(cfg, db, user, id);
            && tx.value == |db.payments| && |tx.db.payments| == tx.value + 1 && tx.db.payments[..tx.value] == db.payments
            && FreshAttempt(tx.db.payments[tx.value], id, db.reservations[id], db.now)
  {
    FindLiveAttemptSound(db.payments, id);
  }

  /** A session is published exactly for a pending attempt whose booking still has the margin; else a pending attempt fails. */
  lemma PublicationNeedsTheHold(cfg: Config, db: Db, payment: nat)
    ensures var (db', published) := PublishOrAbort(cfg, db, payment);
            var known := payment < |db.payments| && db.payments[payment].reservation < |db.reservations|;
            && (published <==>
                  && known && db.payments[payment].status == AttemptPending
                  && var r := db.reservations[db.payments[payment].reservation];
                     r.status == PaymentPending && r.holdExpiresAt.Some? && r.holdExpiresAt.value > db.now + cfg.minHoldRemainingMs)
            && (published || !known || db.payments[payment].status != AttemptPending ==> db' == db)
            && (!published && known && db.payments[payment].status == AttemptPending ==>
                  db' == db.(payments := db.payments[payment := db.payments[payment].(status := Failed)]))
  {}

  /** A rejected session fails its attempt, if that is still pending, and changes nothing else. */
  lemma RejectionFailsTheAttempt(db: Db, payment: nat)
    ensures FailAttempt(db, payment)
            == if payment < |db.payments| && db.payments[payment].status == AttemptPending
               then db.(payments := db.payments[payment := db.payments[payment].(status := Failed)]) else db
  {}

  // ---- payment events

  /** The event is about a payment of its booking, over the amount and in the currency asked for. */
  predicate Matches(db: Db, n: Notification) {
    && n.reservation < |db.reservations| && n.payment < |db.payments|
    && db.payments[n.payment].reservation == n.reservation
    && db.payments[n.payment].amount == n.amount && db.payments[n.payment].currency == n.currency
  }

  /** The statuses in which a booking can take a successful payment. */
  predicate TakesPayment(status: ReservationStatus) {
    status == PaymentPending || status == Expired || status == Confirmed
  }

  /** Payment `p` reads as given, and no other row of any table has changed. */
  ghost predicate OnlyPays(db: Db, db': Db, p: nat, status: PaymentStatus, refundRequired: bool)
    requires p < |db.payments|
  {
    db' == db.(payments := db.payments[p := db.payments[p].(status := status, refundRequired := refundRequired)])
  }

  /** An event is turned down exactly when it matches no payment asked for, or succeeds for a booking past paying. */
  lemma EventIsRejectedExactly(db: Db, n: Notification)
    requires StayInv(db)
    ensures var (db', answer) := ProcessNotification(db, n);
            && (answer.Rejected? <==>
                  !Matches(db, n) || (n.succeeded && !TakesPayment(db.reservations[n.reservation].status)))
            && (answer.Rejected? ==> db' == db)
            && (answer == Rejected(UnknownReservation) <==> n.reservation >= |db.reservations|)
            && (answer == Rejected(PaymentNotOfReservation) <==>
                  && n.reservation < |db.reservations|
                  && (n.payment >= |db.payments| || db.payments[n.payment].reservation != n.reservation))
            && (answer == Rejected(NotConfirmable) <==>
                  Matches(db, n) && n.succeeded && !TakesPayment(db.reservations[n.reservation].status))
  {
    if n.reservation < |db.reservations| {
      assert RowOk(db.inventory, db.reservations, n.reservation);
    }
  }

  /** Money that has arrived is on record: captured, and either the booking is confirmed or the money is due back. */
  lemma SuccessIsOnRecord(db: Db, n: Notification)
    requires n.succeeded && Matches(db, n) && TakesPayment(db.reservations[n.reservation].status)
    requires |db.reservations[n.reservation].items| > 0
    ensures var (db', answer) := ProcessNotification(db, n);
            && |db'.payments| == |db.payments| && |db'.reservations| == |db.reservations|
            && db'.payments[n.payment].status == Captured
            && (db'.reservations[n.reservation].status == Confirmed || db'.payments[n.payment].refundRequired)
            && (answer == Accepted(Confirmed, Captured) <==>
                  db'.reservations[n.reservation].status == Confirmed
                  && (db.reservations[n.reservation].status == Confirmed ==> db.payments[n.payment].status == Captured))
            && (answer.RefundDue? ==> db'.payments[n.payment].refundRequired)
            && (forall q | 0 <= q < |db.payments| && q != n.payment :: db'.payments[q] == db.payments[q])
  {}

  /** The rooms of the booking are still its own, or still free. */
  ghost predicate CanStillSell(db: Db, id: nat)
    requires id < |db.reservations|
  {
    var r := db.reservations[id];
    || (r.status == PaymentPending && r.holdExpiresAt.Some? && r.holdExpiresAt.value > db.now)
    || forall i | 0 <= i < |r.items| :: RoomOnEveryNight(db, r.items[i])
  }

  lemma SellableExactly(db: Db, id: nat)
    requires StayInv(db) && id < |db.reservations|
    ensures CanStillSell(db, id) <==> OnTime(db, id) || ItemsAvailable(db, db.reservations[id].items)
  {
    var r := db.reservations[id];
    assert RowOk(db.inventory, db.reservations, id) && HoldRowsMatch(db.reservations, db.holds, id);
    forall i | 0 <= i < |r.items|
      ensures RoomOnEveryNight(db, r.items[i])
              <==> CheckAvailability(db, r.items[i].roomType, EachNight(r.items[i].checkIn, r.items[i].checkOut), r.items[i].quantity, db.now).Available?
    {
      AvailableEveryNight(db, r.items[i]);
    }
  }

  /** A success confirms an unconfirmed booking exactly when its attempt had not failed and its rooms can still be sold. */
  lemma SuccessConfirmsExactly(db: Db, n: Notification)
    requires StayInv(db) && n.succeeded && Matches(db, n)
    requires db.reservations[n.reservation].status == PaymentPending || db.reservations[n.reservation].status == Expired
    ensures var (db', answer) := ProcessNotification(db, n);
            var r, p := db.reservations[n.reservation], db.payments[n.payment];
            if p.status == Failed then
              answer == RefundDue(r.status, LateSuccessOnFailedAttempt) && OnlyPays(db, db', n.payment, Captured, true)
            else if !CanStillSell(db, n.reservation) then
              answer == RefundDue(r.status, NoInventoryAtConfirmation) && OnlyPays(db, db', n.payment, Captured, true)
            else
              && answer == Accepted(Confirmed, Captured)
              && db'.payments == db.payments[n.payment := p.(status := Captured)]
              && OnlyMoves(db, db', n.reservation, r.(status := Confirmed, confirmedAt := Some(db.now), holdExpiresAt := None))
              && HoldsOf(db'.holds, n.reservation) == []
              && db'.balances == db.balances && db'.ledger == db.ledger
  {
    assert RowOk(db.inventory, db.reservations, n.reservation);
    SellableExactly(db, n.reservation);
    HoldsOfRelease(db.holds, n.reservation, n.reservation);
  }

  /** A booking that is confirmed already takes no second payment: any but the one it was confirmed with is due back. */
  lemma SecondPaymentIsDueBack(db: Db, n: Notification)
    requires n.succeeded && Matches(db, n) && db.reservations[n.reservation].status == Confirmed
    ensures var (db', answer) := ProcessNotification(db, n);
            if db.payments[n.payment].status == Captured then db' == db && answer == Accepted(Confirmed, Captured)
            else answer == RefundDue(Confirmed, DuplicatePayment) && OnlyPays(db, db', n.payment, Captured, true)
    ensures forall q | PaymentsOk(db.reservations, db.payments) && 0 <= q < |db.payments| && q != n.payment
                       && db.payments[q].reservation == n.reservation && KeptCharge(db.payments[q]) ::
              n.payment < |ProcessNotification(db, n).0.payments|
              && ProcessNotification(db, n).0.payments[n.payment].status == Captured
              && ProcessNotification(db, n).0.payments[n.payment].refundRequired
  {}

  /** A failure leaves a captured payment alone and fails any other; the booking is not touched. */
  lemma FailureFailsTheAttempt(db: Db, n: Notification)
    requires !n.succeeded && Matches(db, n)
    ensures var (db', answer) := ProcessNotification(db, n);
            var r, p := db.reservations[n.reservation], db.payments[n.payment];
            if p.status == Captured then db' == db && answer == Accepted(r.status, Captured)
            else answer == Accepted(r.status, Failed) && OnlyPays(db, db', n.payment, Failed, p.refundRequired)
  {}

  // ---- cancellation with a refund

  /** The payment holds money of the guest. */
  predicate HoldsMoney(p: Payment) {
    p.status == Captured || p.status == PartiallyRefunded
  }

  /** Asked to, a cancellation puts every payment of the booking that holds money down for refund; no other payment changes. */
  lemma CancellationFlagsTheMoney(db: Db, id: nat, initiateRefund: bool, p: nat)
    requires AdminCancel(db, id, initiateRefund).Committed? && p < |db.payments|
    ensures var payments := AdminCancel(db, id, initiateRefund).db.payments;
            && |payments| == |db.payments|
            && (if initiateRefund && db.payments[p].reservation == id && HoldsMoney(db.payments[p])
                then payments[p] == db.payments[p].(refundRequired := true) else payments[p] == db.payments[p])
            && (initiateRefund && payments[p].reservation == id ==> !KeptCharge(payments[p]))
            && (!initiateRefund ==> payments == db.payments)
  {}

  /** A cancellation written late flags exactly the payments that held money when it was read. */
  lemma LateCancellationFlagsWhatItRead(db: Db, later: Db, id: nat, initiateRefund: bool, p: nat)
    requires ReadFor(db, Cancel(id, initiateRefund)).Some? && RowsLast(db, later) && p < |later.payments|
    ensures var payments := WriteBack(later, ReadFor(db, Cancel(id, initiateRefund)).value).payments;
            && |payments| == |later.payments|
            && (if initiateRefund && p < |db.payments| && db.payments[p].reservation == id && HoldsMoney(db.payments[p])
                then payments[p] == later.payments[p].(refundRequired := true) else payments[p] == later.payments[p])
  {
    CancelWrites(later, ReadFor(db, Cancel(id, initiateRefund)).value);
  }

  /** Payments kept as charges were kept before, or their booking could still be confirmed. */
  ghost predicate ChargesByConfirming(db: Db, payments': seq<Payment>) {
    forall p | 0 <= p < |payments'| && KeptCharge(payments'[p]) ::
      && p < |db.payments| && db.payments[p].reservation < |db.reservations|
      && (KeptCharge(db.payments[p]) || !Settled(db.reservations[db.payments[p].reservation].status))
  }

  lemma NotifyChargesByConfirming(db: Db, n: Notification)
    requires PaymentsOk(db.reservations, db.payments)
    ensures ChargesByConfirming(db, ProcessNotification(db, n).0.payments)
  {
    NotifyPayments(db, n);
  }

  lemma PrepareChargesByConfirming(cfg: Config, db: Db, user: UserId, id: nat)
    requires PaymentsOk(db.reservations, db.payments)
    ensures ChargesByConfirming(db, Commit(db, PrepareAttempt(cfg, db, user, id)).payments)
  {
    FindLiveAttemptSound(db.payments, id);
  }

  lemma RewriteChargesByConfirming(db: Db, payments': seq<Payment>, p: nat)
    requires PaymentsOk(db.reservations, db.payments) && OneRewrite(db.payments, payments', p)
    ensures ChargesByConfirming(db, payments')
  {}

  lemma CancelChargesByConfirming(db: Db, id: nat, refund: bool)
    requires PaymentsOk(db.reservations, db.payments)
    ensures ChargesByConfirming(db, Commit(db, AdminCancel(db, id, refund)).payments)
  {}

  /** Only the confirmation of its booking makes a payment a charge that is kept. */
  lemma ChargesAreKeptByConfirming(cfg: Config, db: Db, step: Step)
    requires Inv(db)
    ensures ChargesByConfirming(db, Apply(cfg, db, step).payments)
  {
    match step
    case Notify(n) => NotifyChargesByConfirming(db, n);
    case Prepare(user, id) => PrepareChargesByConfirming(cfg, db, user, id);
    case Cancel(id, refund) => CancelChargesByConfirming(db, id, refund);
    case Publish(q) =>
      SingleRewrites(cfg, db, q, 0, None);
      RewriteChargesByConfirming(db, PublishOrAbort(cfg, db, q).0.payments, q);
    case FailSession(q) =>
      SingleRewrites(cfg, db, q, 0, None);
      RewriteChargesByConfirming(db, FailAttempt(db, q).payments, q);
    case RefundPayment(id, q, requested) =>
      SingleRewrites(cfg, db, q, id, requested);
      RewriteChargesByConfirming(db, Commit(db, AdminRefund(db, id, q, requested)).payments, q);
    case _ =>
      OthersKeepPayments(cfg, db, step);
      RewriteChargesByConfirming(db, db.payments, 0);
  }

  /** While other transactions commit, a booking that is confirmed or ended comes by no new charge to keep. */
  lemma {:induction false} SettledKeepsNoNewCharge(cfg: Config, db: Db, gap: seq<Step>, id: nat)
    requires Inv(db) && id < |db.reservations| && Settled(db.reservations[id].status)
    ensures var later := Run(cfg, db, gap);
            && Inv(later) && AmountsKept(db.payments, later.payments)
            && id < |later.reservations| && Settled(later.reservations[id].status)
            && forall p | 0 <= p < |later.payments| && later.payments[p].reservation == id && KeptCharge(later.payments[p]) ::
                 p < |db.payments| && KeptCharge(db.payments[p])
  {
    if |gap| > 0 {
      var before, last := Run(cfg, db, gap[..|gap| - 1]), gap[|gap| - 1];
      SettledKeepsNoNewCharge(cfg, db, gap[..|gap| - 1], id);
      StepKeepsInv(cfg, before, last);
      StepKeepsAmounts(cfg, before, last);
      StepLeavesSettled(cfg, before, last, id);
      ChargesAreKeptByConfirming(cfg, before, last);
    }
  }

  /**
   * Whatever commits between reading and writes, a cancellation that was asked to refund and finds the status it
   * read leaves no charge of the booking kept.
   */
  lemma FreshCancellationKeepsNoCharge(cfg: Config, db: Db, gap: seq<Step>, id: nat, p: nat)
    requires Inv(db) && ReadFor(db, Cancel(id, true)).Some?
    requires var later := Run(cfg, db, gap);
             && id < |db.reservations| <= |later.reservations| && later.reservations[id].status == db.reservations[id].status
             && p < |later.payments| && later.payments[p].reservation == id
    ensures var payments := WriteBack(Run(cfg, db, gap), ReadFor(db, Cancel(id, true)).value).payments;
            p < |payments| && !KeptCharge(payments[p])
  {
    var later := Run(cfg, db, gap);
    RunOnKeepsInv(cfg, db, gap);
    LateCancellationFlagsWhatItRead(db, later, id, true, p);
    assert RowOk(db.inventory, db.reservations, id);
    if db.reservations[id].status == Confirmed {
      SettledKeepsNoNewCharge(cfg, db, gap, id);
    } else {
      UnconfirmedKeepsNoCharge(later, id);
    }
  }

  // ---- refunds

  /** The amount a refund comes to: what was asked for, or else all that is left. */
  function AskedOrAll(requested: Option<int>, left: int): int {
    match requested
    case Some(amount) => amount
    case None => left
  }

  /** A refund commits exactly when the booking has the payment, it holds money, and that much of it is left. */
  lemma RefundCommitsExactly(db: Db, id: nat, payment: nat, requested: Option<int>)
    ensures var tx := AdminRefund(db, id, payment, requested);
            var known := id < |db.reservations| && payment < |db.payments| && db.payments[payment].reservation == id;
            && (tx == RolledBack(NotFound) <==> !known)
            && (tx.RolledBack? ==> tx.error == NotFound || tx.error == BadRequest)
            && (tx.Committed? <==>
                  && known && HoldsMoney(db.payments[payment])
                  && var left := db.payments[payment].amount - RefundedSum(db.refunds, payment);
                     left > 0 && 0 < AskedOrAll(requested, left) <= left)
  {}

  /** What is refunded is added up; the payment is settled exactly when nothing of it is left, and else stays due back. */
  lemma RefundAddsUp(db: Db, id: nat, payment: nat, requested: Option<int>)
    requires AdminRefund(db, id, payment, requested).Committed?
    ensures var tx := AdminRefund(db, id, payment, requested);
            var left, left' := db.payments[payment].amount - RefundedSum(db.refunds, payment),
                               db.payments[payment].amount - RefundedSum(tx.db.refunds, payment);
            && tx.value == AskedOrAll(requested, left) && left' == left - tx.value && left' >= 0
            && tx.db.payments == db.payments[payment := db.payments[payment].(
                 status := if left' == 0 then Refunded else PartiallyRefunded, refundRequired := left' != 0)]
            && (forall q | q != payment :: RefundedSum(tx.db.refunds, q) == RefundedSum(db.refunds, q))
            && tx.db.reservations == db.reservations && tx.db.holds == db.holds && tx.db.inventory == db.inventory
            && tx.db.balances == db.balances && tx.db.ledger == db.ledger
            && tx.db.history == db.history + [HistoryEntry(id, db.reservations[id].status, db.reservations[id].status)]
  {
    var tx := AdminRefund(db, id, payment, requested);
    forall q: nat ensures RefundedSum(tx.db.refunds, q) == RefundedSum(db.refunds, q) + if q == payment then tx.value else 0 {
      RefundSnoc(db.refunds, Refund(payment, tx.value), q);
    }
  }
}
