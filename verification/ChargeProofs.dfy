/** When the charge a confirmed booking keeps is still money, and when all of it has been given back. */
module ChargeProofs {
  import opened Basics
  import opened Lifecycle
  import opened Tables
  import opened Transactions
  import opened Invariants
  import opened PaymentProofs
  import opened Runs

  /** Nothing has been refunded of a live attempt or a kept charge; what was refunded in full or in part says so. */
  predicate MoneyRowOk(p: Payment, refunded: int) {
    && (LiveAttempt(p) || KeptCharge(p) ==> refunded == 0)
    && (p.status == Refunded ==> refunded == p.amount > 0 && !p.refundRequired)
    && (p.status == PartiallyRefunded ==> p.refundRequired)
  }

  predicate MoneyRow(db: Db, p: nat)
    requires p < |db.payments|
  {
    MoneyRowOk(db.payments[p], RefundedSum(db.refunds, p))
  }

  ghost predicate MoneyOk(db: Db) {
    forall p | 0 <= p < |db.payments| :: MoneyRow(db, p)
  }

  /** The guards on the way of a success event to a confirmation. */
  predicate WillConfirm(db: Db, n: Notification) {
    && n.succeeded && n.reservation < |db.reservations| && n.payment < |db.payments|
    && var r, p := db.reservations[n.reservation], db.payments[n.payment];
    && p.reservation == n.reservation && n.amount == p.amount && n.currency == p.currency
    && (r.status == PaymentPending || r.status == Expired) && p.status != Failed
    && (OnTime(db, n.reservation) || (|r.items| > 0 && ItemsAvailable(db, r.items)))
  }

  /** A success event is about to confirm with a payment that has been given back in full. */
  predicate ConfirmsRefunded(db: Db, step: Step) {
    step.Notify? && WillConfirm(db, step.n) && db.payments[step.n.payment].status == Refunded
  }

  /** A notification captures, flags, fails or leaves its payment; only a confirmation captures without flagging. */
  lemma NotifiedPayment(db: Db, n: Notification)
    ensures var db', p := ProcessNotification(db, n).0, n.payment;
            && db'.refunds == db.refunds
            && (|| db'.payments == db.payments
                || (p < |db.payments| && |db'.payments| == |db.payments| && db'.payments == db.payments[p := db'.payments[p]]
                    && if WillConfirm(db, n) then db'.payments[p] == db.payments[p].(status := Captured)
                       else db'.payments[p] == db.payments[p].(status := Captured, refundRequired := true)
                            || db'.payments[p] == db.payments[p].(status := Failed)))
            && (WillConfirm(db, n) ==> |db'.payments| == |db.payments| && db'.payments[p] == db.payments[p].(status := Captured))
  {}

  lemma NotifyKeepsMoneyExactly(db: Db, n: Notification)
    requires MoneyOk(db)
    ensures MoneyOk(ProcessNotification(db, n).0) <==> !ConfirmsRefunded(db, Notify(n))
  {
    var db', p := ProcessNotification(db, n).0, n.payment;
    NotifiedPayment(db, n);
    forall q | 0 <= q < |db'.payments| && q != p ensures MoneyRow(db', q) {
      assert MoneyRow(db, q);
    }
    if p < |db.payments| {
      assert MoneyRow(db, p);
      assert MoneyRow(db', p) <==> !ConfirmsRefunded(db, Notify(n));
    }
  }

  lemma RefundKeepsMoney(db: Db, id: nat, payment: nat, requested: Option<int>)
    requires MoneyOk(db) && AdminRefund(db, id, payment, requested).Committed?
    requires RefundedSum(db.refunds, payment) >= 0
    ensures MoneyOk(AdminRefund(db, id, payment, requested).db)
  {
    var tx := AdminRefund(db, id, payment, requested);
    forall q | 0 <= q < |tx.db.payments| ensures MoneyRow(tx.db, q) {
      assert MoneyRow(db, q);
      RefundSnoc(db.refunds, Refund(payment, tx.value), q);
    }
  }

  lemma PrepareKeepsMoney(cfg: Config, db: Db, user: UserId, id: nat)
    requires MoneyOk(db) && RefundsOk(db.payments, db.refunds) && PrepareAttempt(cfg, db, user, id).Committed?
    ensures MoneyOk(PrepareAttempt(cfg, db, user, id).db)
  {
    var db' := PrepareAttempt(cfg, db, user, id).db;
    FindLiveAttemptSound(db.payments, id);
    forall q | 0 <= q < |db'.payments| ensures MoneyRow(db', q) {
      if q < |db.payments| {
        assert MoneyRow(db, q);
      } else {
        NoRefundsBeyond(db.refunds, q);
      }
    }
  }

  lemma OneRewriteKeepsMoney(db: Db, db': Db, p: nat)
    requires MoneyOk(db) && db'.refunds == db.refunds && OneRewrite(db.payments, db'.payments, p)
    requires db'.payments != db.payments ==> db'.payments[p].status == Failed
    ensures MoneyOk(db')
  {
    forall q | 0 <= q < |db'.payments| ensures MoneyRow(db', q) {
      assert MoneyRow(db, q);
    }
  }

  lemma CancelKeepsMoney(db: Db, id: nat, initiateRefund: bool)
    requires MoneyOk(db)
    ensures MoneyOk(Commit(db, AdminCancel(db, id, initiateRefund)))
  {
    var db' := Commit(db, AdminCancel(db, id, initiateRefund));
    forall q | 0 <= q < |db'.payments| ensures MoneyRow(db', q) {
      assert MoneyRow(db, q);
    }
  }

  lemma SessionSteps(cfg: Config, db: Db, p: nat)
    ensures var db' := PublishOrAbort(cfg, db, p).0;
            db'.refunds == db.refunds && (db'.payments != db.payments ==> |db'.payments| == |db.payments| && p < |db.payments| && db'.payments[p].status == Failed)
    ensures var db' := FailAttempt(db, p);
            db'.refunds == db.refunds && (db'.payments != db.payments ==> |db'.payments| == |db.payments| && p < |db.payments| && db'.payments[p].status == Failed)
  {}

  /** A transaction keeps the money of every kept charge exactly when it does not confirm with a refunded payment. */
  lemma StepKeepsMoneyExactly(cfg: Config, db: Db, step: Step)
    requires PaymentInv(db) && MoneyOk(db)
    ensures MoneyOk(Apply(cfg, db, step)) <==> !ConfirmsRefunded(db, step)
  {
    match step
    case Notify(n) => NotifyKeepsMoneyExactly(db, n);
    case RefundPayment(id, p, requested) =>
      if AdminRefund(db, id, p, requested).Committed? {
        RefundKeepsMoney(db, id, p, requested);
      }
    case Prepare(user, id) =>
      if PrepareAttempt(cfg, db, user, id).Committed? {
        PrepareKeepsMoney(cfg, db, user, id);
      }
    case Publish(p) =>
      SingleRewrites(cfg, db, p, 0, None);
      SessionSteps(cfg, db, p);
      OneRewriteKeepsMoney(db, PublishOrAbort(cfg, db, p).0, p);
    case FailSession(p) =>
      SingleRewrites(cfg, db, p, 0, None);
      SessionSteps(cfg, db, p);
      OneRewriteKeepsMoney(db, FailAttempt(db, p), p);
    case Cancel(id, initiateRefund) => CancelKeepsMoney(db, id, initiateRefund);
    case _ => OtherStepsKeepMoney(cfg, db, step);
  }

  lemma OtherStepsKeepMoney(cfg: Config, db: Db, step: Step)
    requires MoneyOk(db) && !WritesPayments(step)
    ensures MoneyOk(Apply(cfg, db, step))
  {
    forall q | 0 <= q < |Apply(cfg, db, step).payments| ensures MoneyRow(Apply(cfg, db, step), q) {
      assert MoneyRow(db, q);
    }
  }

  // ---- runs

  ghost predicate MoneyAllAlong(cfg: Config, db: Db, steps: seq<Step>) {
    if |steps| == 0 then MoneyOk(db)
    else MoneyAllAlong(cfg, db, steps[..|steps| - 1]) && MoneyOk(Run(cfg, db, steps))
  }

  ghost predicate NeverConfirmsRefunded(cfg: Config, db: Db, steps: seq<Step>) {
    if |steps| == 0 then true
    else NeverConfirmsRefunded(cfg, db, steps[..|steps| - 1])
         && !ConfirmsRefunded(Run(cfg, db, steps[..|steps| - 1]), steps[|steps| - 1])
  }

  /** All along a run kept charges are unrefunded exactly when no refunded payment is confirmed with. */
  lemma {:induction false} RunKeepsMoneyExactly(cfg: Config, db: Db, steps: seq<Step>)
    requires Initial(db)
    ensures MoneyAllAlong(cfg, db, steps) <==> NeverConfirmsRefunded(cfg, db, steps)
    ensures MoneyAllAlong(cfg, db, steps) ==> MoneyOk(Run(cfg, db, steps))
  {
    if |steps| > 0 {
      var front := steps[..|steps| - 1];
      RunKeepsMoneyExactly(cfg, db, front);
      RunKeepsInv(cfg, db, front);
      if MoneyAllAlong(cfg, db, front) {
        StepKeepsMoneyExactly(cfg, Run(cfg, db, front), steps[|steps| - 1]);
      }
    }
  }

  /** After such a run the hotel still has the whole price of every booking it keeps a charge for. */
  lemma KeptChargesAreMoney(cfg: Config, db: Db, steps: seq<Step>, p: nat)
    requires Initial(db) && NeverConfirmsRefunded(cfg, db, steps)
    requires p < |Run(cfg, db, steps).payments| && KeptCharge(Run(cfg, db, steps).payments[p])
    ensures var s := Run(cfg, db, steps);
            && s.payments[p].reservation < |s.reservations|
            && s.payments[p].amount - RefundedSum(s.refunds, p) == s.reservations[s.payments[p].reservation].totalAmount
  {
    RunKeepsMoneyExactly(cfg, db, steps);
    RunKeepsInv(cfg, db, steps);
    assert MoneyRow(Run(cfg, db, steps), p);
  }
}
