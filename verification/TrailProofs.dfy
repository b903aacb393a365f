/** The audit trail of every reservation replays to its present status, and holds have a bounded life. */
module TrailProofs {
  import opened Basics
  import opened Lifecycle
  import opened Tables
  import opened Transactions
  import opened Invariants
  import opened StaySteps
  import opened PaymentProofs
  import opened CoinProofs

  /** The step changed no status and wrote no history. */
  ghost predicate StatusesKept(db: Db, db': Db) {
    && db'.history == db.history && |db'.reservations| == |db.reservations|
    && forall k | 0 <= k < |db.reservations| :: db'.reservations[k].status == db.reservations[k].status
  }

  /** The step wrote one row, saying exactly what it did to the status of one reservation. */
  ghost predicate Recorded(db: Db, db': Db, id: nat) {
    && id < |db.reservations| == |db'.reservations|
    && db'.history == Record(db.history, id, db.reservations[id].status, db'.reservations[id].status)
    && LegalEntry(HistoryEntry(id, db.reservations[id].status, db'.reservations[id].status))
    && forall k | 0 <= k < |db.reservations| && k != id :: db'.reservations[k].status == db.reservations[k].status
  }

  ghost predicate Logged(db: Db, db': Db) {
    StatusesKept(db, db') || exists id | 0 <= id < |db.reservations| :: Recorded(db, db', id)
  }

  lemma BookingLogs(cfg: Config, db: Db, step: Step)
    requires step.Extend? || step.Expire? || step.Complete? || step.CreditEarn? || KeepsReservations(step)
    ensures Logged(db, Apply(cfg, db, step))
  {
    match step
    case Expire(id) => ExpiryLogs(db, id);
    case Complete(id) => CompletionLogs(db, id);
    case RefundPayment(id, p, requested) => RefundLogs(db, id, p, requested);
    case CreditEarn(_) =>
    case AdjustCoins(_, _) =>
    case _ => CoinlessFrame(cfg, db, step);
  }

  lemma ExpiryLogs(db: Db, id: nat)
    ensures Logged(db, ExpireReservation(db, id).0)
  {
    if ExpireReservation(db, id).1 {
      assert Recorded(db, ExpireReservation(db, id).0, id);
    }
  }

  lemma CompletionLogs(db: Db, id: nat)
    ensures Logged(db, CompleteStay(db, id).0)
  {
    if CompleteStay(db, id).1 {
      assert Recorded(db, CompleteStay(db, id).0, id);
    }
  }

  lemma RefundLogs(db: Db, id: nat, payment: nat, requested: Option<int>)
    ensures Logged(db, Commit(db, AdminRefund(db, id, payment, requested)))
  {
    if AdminRefund(db, id, payment, requested).Committed? {
      assert Recorded(db, AdminRefund(db, id, payment, requested).db, id);
    }
  }

  lemma AdminLogs(cfg: Config, db: Db, step: Step)
    requires step.Accept? || step.Cancel? || step.MarkNoShow?
    ensures Logged(db, Apply(cfg, db, step))
  {
    if step.id < |db.reservations| && Apply(cfg, db, step).history != db.history {
      assert Recorded(db, Apply(cfg, db, step), step.id);
    }
  }

  lemma NotifyLogs(db: Db, n: Notification)
    ensures Logged(db, ProcessNotification(db, n).0)
  {
    NotifyShapes(db, n);
    if ProcessNotification(db, n).0.history != db.history {
      assert Recorded(db, ProcessNotification(db, n).0, n.reservation);
    }
  }

  lemma StepLogs(cfg: Config, db: Db, step: Step)
    requires !step.Create?
    ensures Logged(db, Apply(cfg, db, step))
  {
    if step.Notify? {
      NotifyLogs(db, step.n);
    } else if step.Accept? || step.Cancel? || step.MarkNoShow? {
      AdminLogs(cfg, db, step);
    } else {
      BookingLogs(cfg, db, step);
    }
  }

  lemma LoggedKeepsTrails(db: Db, db': Db)
    requires TrailInv(db) && Logged(db, db')
    ensures TrailInv(db')
  {
    if StatusesKept(db, db') {
      forall k | 0 <= k < |db'.reservations| ensures TrailOk(db', k) {
        assert TrailOk(db, k);
      }
    } else {
      var id :| 0 <= id < |db.reservations| && Recorded(db, db', id);
      var e := HistoryEntry(id, db.reservations[id].status, db'.reservations[id].status);
      forall k | 0 <= k < |db'.reservations| ensures TrailOk(db', k) {
        assert TrailOk(db, k);
        HistorySnoc(db.history, e, k);
        if k == id {
          assert (Trail(db.history, id) + [e])[..|Trail(db.history, id)|] == Trail(db.history, id);
        } else {
          assert Trail(db'.history, k) == Trail(db.history, k);
        }
      }
    }
  }

  lemma CreateKeepsTrails(cfg: Config, db: Db, req: BookingRequest)
    requires TrailInv(db) && AccountsOk(db.balances, db.ledger) && CreateBooking(cfg, db, req).Committed?
    ensures TrailInv(CreateBooking(cfg, db, req).db)
  {
    var db' := CreateBooking(cfg, db, req).db;
    CreatePosts(cfg, db, req);
    forall k | 0 <= k < |db'.reservations| ensures TrailOk(db', k) {
      if k < |db.reservations| {
        assert TrailOk(db, k);
      } else {
        NoRowsBeyond([], db.history, k, Redeem);
      }
    }
  }

  lemma StepKeepsTrails(cfg: Config, db: Db, step: Step)
    requires TrailInv(db) && CoinInv(db)
    ensures TrailInv(Apply(cfg, db, step))
  {
    if step.Create? {
      if CreateBooking(cfg, db, step.req).Committed? {
        CreateKeepsTrails(cfg, db, step.req);
      }
    } else {
      StepLogs(cfg, db, step);
      LoggedKeepsTrails(db, Apply(cfg, db, step));
    }
  }

  // ---- hold lifetime

  /** Only extension writes the expiry of a hold that stays pending. */
  ghost predicate ExpiriesKept(rs: seq<Reservation>, rs': seq<Reservation>) {
    && |rs'| == |rs|
    && forall k | 0 <= k < |rs| && rs'[k].status == PaymentPending ::
         rs[k].status == PaymentPending && rs'[k].holdExpiresAt == rs[k].holdExpiresAt && rs'[k].createdAt == rs[k].createdAt
  }

  lemma StepKeepsExpiries(cfg: Config, db: Db, step: Step)
    requires !step.Create? && !step.Extend?
    ensures ExpiriesKept(db.reservations, Apply(cfg, db, step).reservations)
  {
    if step.Notify? {
      NotifyShapes(db, step.n);
    } else if KeepsReservations(step) {
      OthersKeepReservations(cfg, db, step);
    } else {
      OtherExpiries(cfg, db, step);
    }
  }

  lemma OtherExpiries(cfg: Config, db: Db, step: Step)
    requires step.Expire? || step.Complete? || step.CreditEarn? || step.Accept? || step.Cancel? || step.MarkNoShow?
    ensures ExpiriesKept(db.reservations, Apply(cfg, db, step).reservations)
  {}

  lemma StepMovesClockForward(cfg: Config, db: Db, step: Step)
    ensures Apply(cfg, db, step).now >= db.now
  {}

  /** With a TTL of at most an hour no hold outlives an hour from creation. */
  lemma StepKeepsHoldBound(cfg: Config, db: Db, step: Step)
    requires HoldBoundOk(db.now, db.reservations) && cfg.holdTtlMs <= MAX_HOLD_MS
    ensures HoldBoundOk(Apply(cfg, db, step).now, Apply(cfg, db, step).reservations)
  {
    var db' := Apply(cfg, db, step);
    StepMovesClockForward(cfg, db, step);
    StepKeepsTerms(cfg, db, step);
    if !step.Create? && !step.Extend? {
      StepKeepsExpiries(cfg, db, step);
      assert forall k | 0 <= k < |db.reservations| :: TermsKept(db.reservations[k], db'.reservations[k]);
    }
  }

  /** The expiry of a hold never moves back while payment is pending. */
  lemma HoldNeverShrinks(cfg: Config, db: Db, step: Step, id: nat)
    requires HoldBoundOk(db.now, db.reservations)
    requires id < |db.reservations| && StampOk(db.reservations[id])
    requires var db' := Apply(cfg, db, step);
             |db'.reservations| >= |db.reservations| && db'.reservations[id].status == PaymentPending
             && db.reservations[id].status == PaymentPending
    ensures var r' := Apply(cfg, db, step).reservations[id];
            r'.holdExpiresAt.Some? && r'.holdExpiresAt.value >= db.reservations[id].holdExpiresAt.value
  {
    if !step.Create? && !step.Extend? {
      StepKeepsExpiries(cfg, db, step);
    }
  }

  /** An hour after creation an unpaid booking takes no room away from anybody. */
  lemma HourOldHoldIsDead(db: Db, id: nat, slot: Slot)
    requires HoldBoundOk(db.now, db.reservations) && id < |db.reservations|
    requires db.now >= db.reservations[id].createdAt + MAX_HOLD_MS
    ensures HeldWeight(db.reservations[id], slot, db.now) == 0
  {}
}
