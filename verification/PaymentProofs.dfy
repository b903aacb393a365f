/** No reservation keeps two charges, and the three session phases never leave two live attempts. */
module PaymentProofs {
  import opened Basics
  import opened Lifecycle
  import opened Tables
  import opened Coins
  import opened Transactions
  import opened Invariants
  import opened StaySteps

  /** The agreed terms of a booking never change, and a confirmation stamp is never taken back. */
  predicate TermsKept(r: Reservation, r': Reservation) {
    && r'.user == r.user && r'.items == r.items && r'.createdAt == r.createdAt
    && r'.totalAmount == r.totalAmount && r'.currency == r.currency
    && r'.coinsRedeemed == r.coinsRedeemed && r'.coinsEarnable == r.coinsEarnable
    && (r.confirmedAt.Some? ==> r'.confirmedAt.Some?)
  }

  ghost predicate AllTermsKept(rs: seq<Reservation>, rs': seq<Reservation>) {
    |rs| <= |rs'| && forall id | 0 <= id < |rs| :: TermsKept(rs[id], rs'[id])
  }

  lemma NotifyKeepsTerms(db: Db, n: Notification)
    ensures AllTermsKept(db.reservations, ProcessNotification(db, n).0.reservations)
    ensures |ProcessNotification(db, n).0.reservations| == |db.reservations|
  {
    NotifyShapes(db, n);
  }

  lemma BookingKeepsTerms(cfg: Config, db: Db, step: Step)
    requires step.Create? || step.Extend?
    ensures AllTermsKept(db.reservations, Apply(cfg, db, step).reservations)
    ensures step.Create? || |Apply(cfg, db, step).reservations| == |db.reservations|
  {}

  lemma StayKeepsTerms(cfg: Config, db: Db, step: Step)
    requires step.Expire? || step.Complete?
    ensures AllTermsKept(db.reservations, Apply(cfg, db, step).reservations)
    ensures |Apply(cfg, db, step).reservations| == |db.reservations|
  {}

  lemma CreditKeepsTerms(db: Db, id: nat)
    ensures AllTermsKept(db.reservations, CreditEarnOnComplete(db, id).0.reservations)
    ensures |CreditEarnOnComplete(db, id).0.reservations| == |db.reservations|
  {}

  lemma AdminKeepsTerms(cfg: Config, db: Db, step: Step)
    requires step.Accept? || step.Cancel? || step.MarkNoShow?
    ensures AllTermsKept(db.reservations, Apply(cfg, db, step).reservations)
    ensures |Apply(cfg, db, step).reservations| == |db.reservations|
  {}

  /** Steps that rewrite no reservation at all. */
  predicate KeepsReservations(step: Step) {
    step.Prepare? || step.Publish? || step.FailSession? || step.RefundPayment? || step.AdjustCoins? || step.Tick?
  }

  lemma OthersKeepReservations(cfg: Config, db: Db, step: Step)
    requires KeepsReservations(step)
    ensures Apply(cfg, db, step).reservations == db.reservations
  {}

  lemma StepKeepsTerms(cfg: Config, db: Db, step: Step)
    ensures AllTermsKept(db.reservations, Apply(cfg, db, step).reservations)
    ensures step.Create? || |Apply(cfg, db, step).reservations| == |db.reservations|
  {
    if step.Notify? {
      NotifyKeepsTerms(db, step.n);
    } else if step.Accept? || step.Cancel? || step.MarkNoShow? {
      AdminKeepsTerms(cfg, db, step);
    } else if KeepsReservations(step) {
      OthersKeepReservations(cfg, db, step);
    } else if step.Create? || step.Extend? {
      BookingKeepsTerms(cfg, db, step);
    } else if step.CreditEarn? {
      CreditKeepsTerms(db, step.id);
    } else {
      StayKeepsTerms(cfg, db, step);
    }
  }

  /** Steps that write payments or refunds. */
  predicate WritesPayments(step: Step) {
    step.Prepare? || step.Publish? || step.FailSession? || step.Notify? || step.Cancel? || step.RefundPayment?
  }

  lemma OthersKeepPayments(cfg: Config, db: Db, step: Step)
    requires !WritesPayments(step)
    ensures Apply(cfg, db, step).payments == db.payments && Apply(cfg, db, step).refunds == db.refunds
  {}

  /** One row of the payments rewritten with its reservation and amount kept, or nothing. */
  predicate OneRewrite(payments: seq<Payment>, payments': seq<Payment>, p: nat) {
    || payments' == payments
    || (p < |payments| && |payments'| == |payments| && payments' == payments[p := payments'[p]]
        && payments'[p] == payments[p].(status := payments'[p].status, refundRequired := payments'[p].refundRequired)
        && !LiveAttempt(payments'[p]) && !KeptCharge(payments'[p]))
  }

  lemma SingleRewrites(cfg: Config, db: Db, p: nat, id: nat, requested: Option<int>)
    ensures OneRewrite(db.payments, PublishOrAbort(cfg, db, p).0.payments, p)
    ensures OneRewrite(db.payments, FailAttempt(db, p).payments, p)
    ensures OneRewrite(db.payments, Commit(db, AdminRefund(db, id, p, requested)).payments, p)
  {}

  lemma TermsCarryPayments(rs: seq<Reservation>, rs': seq<Reservation>, payments: seq<Payment>)
    requires PaymentsOk(rs, payments) && AllTermsKept(rs, rs')
    ensures PaymentsOk(rs', payments)
  {
    forall p | 0 <= p < |payments|
      ensures payments[p].reservation < |rs'|
              && payments[p].amount == rs'[payments[p].reservation].totalAmount
              && payments[p].currency == rs'[payments[p].reservation].currency
              && (KeptCharge(payments[p]) ==> rs'[payments[p].reservation].confirmedAt.Some?)
    {
      assert TermsKept(rs[payments[p].reservation], rs'[payments[p].reservation]);
    }
  }

  lemma AppendKeepsPayments(rs: seq<Reservation>, payments: seq<Payment>, p': Payment)
    requires PaymentsOk(rs, payments) && p'.reservation < |rs| && p'.status == AttemptPending
    requires p'.amount == rs[p'.reservation].totalAmount && p'.currency == rs[p'.reservation].currency
    requires forall q | 0 <= q < |payments| && payments[q].reservation == p'.reservation :: !LiveAttempt(payments[q])
    ensures PaymentsOk(rs, payments + [p'])
  {}

  lemma FlagKeepsPayments(rs: seq<Reservation>, payments: seq<Payment>, id: nat)
    requires PaymentsOk(rs, payments)
    ensures PaymentsOk(rs, FlagForRefund(payments, id))
  {}

  /** Before its confirmation a reservation keeps no charge. */
  lemma UnconfirmedKeepsNoCharge(db: Db, id: nat)
    requires StayInv(db) && PaymentsOk(db.reservations, db.payments)
    requires id < |db.reservations| && CanTransition(db.reservations[id].status, Confirmed)
    ensures forall q | 0 <= q < |db.payments| && db.payments[q].reservation == id :: !KeptCharge(db.payments[q])
  {
    assert RowOk(db.inventory, db.reservations, id);
  }

  /** Payment `p` of booking `id` is left alone, or settled; a charge is newly kept only by confirming. */
  predicate Settles(db: Db, db': Db, id: nat, p: nat) {
    || db'.payments == db.payments
    || (&& p < |db.payments|
        && |db'.payments| == |db.payments| && db'.payments == db.payments[p := db'.payments[p]]
        && db'.payments[p] == db.payments[p].(status := db'.payments[p].status, refundRequired := db'.payments[p].refundRequired)
        && !LiveAttempt(db'.payments[p])
        && (db.payments[p].status == Captured ==> db'.payments[p].status == Captured)
        && (KeptCharge(db'.payments[p]) ==>
              && db.payments[p].reservation == id < |db.reservations| == |db'.reservations|
              && CanTransition(db.reservations[id].status, Confirmed)
              && db'.reservations[id].confirmedAt.Some?))
  }

  lemma SuccessSettles(db: Db, id: nat, p: nat)
    requires id < |db.reservations| && p < |db.payments| && db.payments[p].reservation == id
    ensures Settles(db, ApplySuccess(db, id, p).0, id, p)
  {}

  /** What a notification does to the payments: nothing, or one row rewritten. */
  lemma NotifyPayments(db: Db, n: Notification)
    ensures Settles(db, ProcessNotification(db, n).0, n.reservation, n.payment)
  {
    if n.reservation < |db.reservations| && n.payment < |db.payments| && db.payments[n.payment].reservation == n.reservation {
      SuccessSettles(db, n.reservation, n.payment);
    }
  }

  lemma NotifyKeepsPayments(db: Db, n: Notification)
    requires StayInv(db) && PaymentsOk(db.reservations, db.payments)
    ensures var db' := ProcessNotification(db, n).0; PaymentsOk(db'.reservations, db'.payments)
  {
    var db', p := ProcessNotification(db, n).0, n.payment;
    NotifyKeepsTerms(db, n);
    TermsCarryPayments(db.reservations, db'.reservations, db.payments);
    NotifyPayments(db, n);
    if db'.payments != db.payments && KeptCharge(db'.payments[p]) {
      UnconfirmedKeepsNoCharge(db, n.reservation);
    }
  }

  lemma PrepareKeepsPayments(cfg: Config, db: Db, user: UserId, id: nat)
    requires PaymentsOk(db.reservations, db.payments) && PrepareAttempt(cfg, db, user, id).Committed?
    ensures PaymentsOk(db.reservations, PrepareAttempt(cfg, db, user, id).db.payments)
  {
    var r := db.reservations[id];
    var attempt := Payment(id, r.totalAmount, r.currency, AttemptPending, false, db.now);
    FindLiveAttemptSound(db.payments, id);
    var live := FindLiveAttempt(db.payments, id);
    if live.None? {
      AppendKeepsPayments(db.reservations, db.payments, attempt);
    } else {
      var p := live.value;
      var retired := db.payments[p].(status := Failed);
      AppendKeepsPayments(db.reservations, db.payments[p := retired], attempt);
    }
  }

  /** The reason AMOUNT_CHANGED is unreachable: an attempt always carries its reservation's total. */
  lemma AttemptAmountNeverStale(db: Db, id: nat)
    requires PaymentsOk(db.reservations, db.payments) && id < |db.reservations|
    ensures var live := FindLiveAttempt(db.payments, id);
            live.Some? ==> live.value < |db.payments| && db.payments[live.value].amount == db.reservations[id].totalAmount
  {
    FindLiveAttemptSound(db.payments, id);
  }

  lemma OneRewriteKeepsPayments(rs: seq<Reservation>, payments: seq<Payment>, payments': seq<Payment>, p: nat)
    requires PaymentsOk(rs, payments) && OneRewrite(payments, payments', p)
    ensures PaymentsOk(rs, payments')
  {}

  lemma StepKeepsPayments(cfg: Config, db: Db, step: Step)
    requires StayInv(db) && PaymentsOk(db.reservations, db.payments)
    ensures var db' := Apply(cfg, db, step); PaymentsOk(db'.reservations, db'.payments)
  {
    var rs' := Apply(cfg, db, step).reservations;
    StepKeepsTerms(cfg, db, step);
    TermsCarryPayments(db.reservations, rs', db.payments);
    match step
    case Notify(n) => NotifyKeepsPayments(db, n);
    case Prepare(user, id) =>
      if PrepareAttempt(cfg, db, user, id).Committed? {
        PrepareKeepsPayments(cfg, db, user, id);
        OthersKeepReservations(cfg, db, step);
      }
    case Publish(p) =>
      SingleRewrites(cfg, db, p, 0, None);
      OneRewriteKeepsPayments(rs', db.payments, PublishOrAbort(cfg, db, p).0.payments, p);
    case FailSession(p) =>
      SingleRewrites(cfg, db, p, 0, None);
      OneRewriteKeepsPayments(rs', db.payments, FailAttempt(db, p).payments, p);
    case RefundPayment(id, p, requested) =>
      SingleRewrites(cfg, db, p, id, requested);
      OneRewriteKeepsPayments(rs', db.payments, Commit(db, AdminRefund(db, id, p, requested)).payments, p);
    case Cancel(id, refund) =>
      FlagKeepsPayments(rs', db.payments, id);
    case _ => OthersKeepPayments(cfg, db, step);
  }

  // ---- refunds

  /** Ids and amounts of payments are never rewritten. */
  ghost predicate AmountsKept(payments: seq<Payment>, payments': seq<Payment>) {
    && |payments| <= |payments'|
    && forall p | 0 <= p < |payments| ::
         payments'[p].amount == payments[p].amount && payments'[p].reservation == payments[p].reservation
  }

  /** What `AmountsKept` says, and that no payment is created with a negative amount. */
  ghost predicate AmountsGrow(payments: seq<Payment>, payments': seq<Payment>) {
    AmountsKept(payments, payments') && forall p | |payments| <= p < |payments'| :: payments'[p].amount >= 0
  }

  lemma PrepareKeepsAmounts(cfg: Config, db: Db, user: UserId, id: nat)
    requires PaymentInv(db)
    ensures AmountsGrow(db.payments, Commit(db, PrepareAttempt(cfg, db, user, id)).payments)
  {
    if id < |db.reservations| {
      FindLiveAttemptSound(db.payments, id);
    }
  }

  lemma NotifyKeepsAmounts(db: Db, n: Notification)
    requires PaymentInv(db)
    ensures AmountsGrow(db.payments, ProcessNotification(db, n).0.payments)
  {
    NotifyPayments(db, n);
  }

  lemma OneRewriteKeepsAmounts(payments: seq<Payment>, payments': seq<Payment>, p: nat)
    requires OneRewrite(payments, payments', p)
    ensures AmountsGrow(payments, payments')
  {}

  lemma CancelKeepsAmounts(db: Db, id: nat, refund: bool)
    ensures AmountsGrow(db.payments, Commit(db, AdminCancel(db, id, refund)).payments)
  {}

  lemma StepKeepsAmounts(cfg: Config, db: Db, step: Step)
    requires PaymentInv(db)
    ensures AmountsGrow(db.payments, Apply(cfg, db, step).payments)
  {
    match step
    case Notify(n) => NotifyKeepsAmounts(db, n);
    case Prepare(user, id) => PrepareKeepsAmounts(cfg, db, user, id);
    case Publish(p) =>
      SingleRewrites(cfg, db, p, 0, None);
      OneRewriteKeepsAmounts(db.payments, PublishOrAbort(cfg, db, p).0.payments, p);
    case FailSession(p) =>
      SingleRewrites(cfg, db, p, 0, None);
      OneRewriteKeepsAmounts(db.payments, FailAttempt(db, p).payments, p);
    case RefundPayment(id, p, requested) =>
      SingleRewrites(cfg, db, p, id, requested);
      OneRewriteKeepsAmounts(db.payments, Commit(db, AdminRefund(db, id, p, requested)).payments, p);
    case Cancel(id, refund) => CancelKeepsAmounts(db, id, refund);
    case _ => OthersKeepPayments(cfg, db, step);
  }

  lemma RefundSnoc(refunds: seq<Refund>, refund: Refund, p: nat)
    ensures RefundedSum(refunds + [refund], p) == RefundedSum(refunds, p) + if refund.payment == p then refund.amount else 0
  {
    assert (refunds + [refund])[..|refunds|] == refunds;
  }

  lemma {:induction false} NoRefundsBeyond(refunds: seq<Refund>, p: nat)
    requires forall i | 0 <= i < |refunds| :: refunds[i].payment != p
    ensures RefundedSum(refunds, p) == 0
  {
    if |refunds| > 0 {
      NoRefundsBeyond(refunds[..|refunds| - 1], p);
    }
  }

  lemma RefundStepKeepsRefunds(db: Db, id: nat, payment: nat, requested: Option<int>)
    requires RefundsOk(db.payments, db.refunds) && AdminRefund(db, id, payment, requested).Committed?
    ensures var db' := AdminRefund(db, id, payment, requested).db; RefundsOk(db'.payments, db'.refunds)
  {
    var db' := AdminRefund(db, id, payment, requested).db;
    var refund := db'.refunds[|db.refunds|];
    forall p | 0 <= p < |db'.payments| ensures 0 <= RefundedSum(db'.refunds, p) <= db'.payments[p].amount {
      RefundSnoc(db.refunds, refund, p);
    }
  }

  /** Completed refunds on a payment never sum past its amount. */
  lemma StepKeepsRefunds(cfg: Config, db: Db, step: Step)
    requires StayInv(db) && PaymentInv(db)
    ensures var db' := Apply(cfg, db, step); RefundsOk(db'.payments, db'.refunds)
  {
    var db' := Apply(cfg, db, step);
    if step.RefundPayment? && AdminRefund(db, step.id, step.payment, step.requested).Committed? {
      RefundStepKeepsRefunds(db, step.id, step.payment, step.requested);
    } else {
      StepKeepsAmounts(cfg, db, step);
      OtherStepsRefundNothing(cfg, db, step);
      forall p | 0 <= p < |db'.payments| ensures 0 <= RefundedSum(db'.refunds, p) <= db'.payments[p].amount {
        if p >= |db.payments| {
          NoRefundsBeyond(db.refunds, p);
        }
      }
    }
  }

  lemma OtherStepsRefundNothing(cfg: Config, db: Db, step: Step)
    requires step.RefundPayment? ==> AdminRefund(db, step.id, step.payment, step.requested).RolledBack?
    ensures Apply(cfg, db, step).refunds == db.refunds
  {}

  lemma StepKeepsPaymentInv(cfg: Config, db: Db, step: Step)
    requires StayInv(db) && PaymentInv(db)
    ensures PaymentInv(Apply(cfg, db, step))
  {
    var db' := Apply(cfg, db, step);
    StepKeepsPayments(cfg, db, step);
    StepKeepsRefunds(cfg, db, step);
    StepKeepsTerms(cfg, db, step);
    forall id | 0 <= id < |db'.reservations| ensures db'.reservations[id].totalAmount >= 0 {
      if id < |db.reservations| {
        assert TermsKept(db.reservations[id], db'.reservations[id]);
      }
    }
  }

  // ---- sessions

  /** No session phase and no failure report moves a payment out of CAPTURED. */
  lemma CapturedSurvivesSessions(cfg: Config, db: Db, step: Step, p: nat)
    requires step.Prepare? || step.Publish? || step.FailSession? || (step.Notify? && !step.n.succeeded)
    requires p < |db.payments| && db.payments[p].status == Captured
    ensures p < |Apply(cfg, db, step).payments| && Apply(cfg, db, step).payments[p] == db.payments[p]
  {
    if step.Prepare? && PrepareAttempt(cfg, db, step.user, step.id).Committed? {
      FindLiveAttemptSound(db.payments, step.id);
    }
  }

  /** A prepared attempt is pending, belongs to the reservation, asks for its total, and is its only live one. */
  lemma PrepareYieldsTheLiveAttempt(cfg: Config, db: Db, user: UserId, id: nat)
    requires PaymentsOk(db.reservations, db.payments) && PrepareAttempt(cfg, db, user, id).Committed?
    ensures var tx := PrepareAttempt(cfg, db, user, id);
            && tx.value < |tx.db.payments| && LiveAttempt(tx.db.payments[tx.value])
            && tx.db.payments[tx.value].reservation == id
            && tx.db.payments[tx.value].amount == db.reservations[id].totalAmount
            && forall q | 0 <= q < |tx.db.payments| && q != tx.value && tx.db.payments[q].reservation == id ::
                 !LiveAttempt(tx.db.payments[q])
  {
    PrepareKeepsPayments(cfg, db, user, id);
    FindLiveAttemptSound(db.payments, id);
  }
}
