/** Operations that read before they lock: a reading, then any transactions of anybody, then the writes. */
module StaleWrites {
  import opened Basics
  import opened Lifecycle
  import opened Tables
  import opened Inventory
  import opened Coins
  import opened Transactions
  import opened Invariants
  import opened StayProofs
  import opened StaySteps
  import opened PaymentProofs
  import opened CoinProofs
  import opened TrailProofs
  import opened Runs
  import opened Capacity
  import opened LateCoins

  // The admin services read the booking, its payments and its refunds outside the transaction that writes;
  // extension and coin adjustment write what they computed from an unlocked read. None takes a second look.

  predicate ReadsFirst(step: Step) {
    step.Accept? || step.Cancel? || step.MarkNoShow? || step.RefundPayment? || step.Extend? || step.AdjustCoins?
  }

  /** What an operation carries from its reading to its writes; a cancellation may read a balance later on. */
  datatype Reading =
    | ToAccept(id: nat)
    | ToCancel(id: nat, status: ReservationStatus, items: seq<Item>, holding: set<nat>, over: Option<int>)
    | ToMarkNoShow(id: nat)
    | ToRefund(id: nat, status: ReservationStatus, payment: nat, amount: int, full: bool)
    | ToExtend(id: nat, proposed: Time)
    | ToAdjust(user: UserId, balance: int, amount: int)

  /** Payments of a booking that hold the guest's money. */
  function HoldingMoney(payments: seq<Payment>, id: nat): set<nat> {
    set p | 0 <= p < |payments| && payments[p].reservation == id
            && (payments[p].status == Captured || payments[p].status == PartiallyRefunded)
  }

  /** None when the checks on what was read refuse the operation, or it has nothing to write. */
  function ReadFor(db: Db, step: Step): Option<Reading>
    requires ReadsFirst(step)
  {
    match step
    case Accept(id) => if AdminAccept(db, id).Committed? then Some(ToAccept(id)) else None
    case Cancel(id, initiateRefund) =>
      if AdminCancel(db, id, initiateRefund).Committed? then
        Some(ToCancel(id, db.reservations[id].status, db.reservations[id].items,
                      if initiateRefund then HoldingMoney(db.payments, id) else {}, None))
      else None
    case MarkNoShow(id) => if AdminNoShow(db, id).Committed? then Some(ToMarkNoShow(id)) else None
    case RefundPayment(id, payment, requested) =>
      var tx := AdminRefund(db, id, payment, requested);
      if tx.Committed? then
        Some(ToRefund(id, db.reservations[id].status, payment, tx.value,
                      tx.value >= db.payments[payment].amount - RefundedSum(db.refunds, payment)))
      else None
    case Extend(user, id) =>
      if ExtensionApplies(db, user, id) then
        Some(ToExtend(id, Min(db.reservations[id].holdExpiresAt.value + HOLD_EXTEND_BY_MS, db.reservations[id].createdAt + MAX_HOLD_MS)))
      else None
    case AdjustCoins(user, amount) =>
      if AdjustBalance(db, user, amount).Some? then Some(ToAdjust(user, db.balances[user], amount)) else None
  }

  /** The rows a reading names are there; no row of these tables is ever deleted. */
  predicate Addressed(db: Db, w: Reading) {
    match w
    case ToRefund(id, _, payment, _, _) => id < |db.reservations| && payment < |db.payments|
    case ToAdjust(user, _, _) => user in db.balances
    case ToCancel(id, _, _, _, over) => id < |db.reservations| && (over.Some? ==> db.reservations[id].user in db.balances)
    case _ => w.id < |db.reservations|
  }

  /** No row has been deleted. */
  predicate RowsLast(db: Db, later: Db) {
    |db.reservations| <= |later.reservations| && |db.payments| <= |later.payments|
  }

  function SetStatus(db: Db, id: nat, r: Reservation, from: ReservationStatus): Db
    requires id < |db.reservations|
  {
    db.(reservations := db.reservations[id := r], history := Record(db.history, id, from, r.status))
  }

  function FlagRows(payments: seq<Payment>, rows: set<nat>): (flagged: seq<Payment>)
    ensures |flagged| == |payments|
  {
    seq(|payments|, i requires 0 <= i < |payments| =>
      if i in rows then payments[i].(refundRequired := true) else payments[i])
  }

  /** The writes, on whatever the tables have become. */
  function WriteBack(db: Db, w: Reading): Db
    requires Addressed(db, w)
  {
    match w
    case ToAccept(id) =>
      SetStatus(ConvertHoldsToSold(db, id), id,
                db.reservations[id].(status := Confirmed, confirmedAt := Some(db.now), holdExpiresAt := None), PaymentPending)
    case ToCancel(id, status, items, holding, over) =>
      var freed := db.(holds := if status == PaymentPending then ReleaseHolds(db.holds, id) else db.holds,
                       inventory := if status == Confirmed then RestoreItems(db.inventory, items) else db.inventory,
                       reservations := db.reservations[id := db.reservations[id].(status := Cancelled, holdExpiresAt := None)]);
      var refunded := if over.None? then RefundRedemption(freed, id) else RefundOver(freed, id, over.value);
      refunded.(payments := FlagRows(refunded.payments, holding),
                history := Record(refunded.history, id, status, Cancelled))
    case ToMarkNoShow(id) => SetStatus(db, id, db.reservations[id].(status := NoShow), Confirmed)
    case ToRefund(id, status, payment, amount, full) =>
      db.(refunds := db.refunds + [Refund(payment, amount)],
          payments := db.payments[payment := db.payments[payment].(status := if full then Refunded else PartiallyRefunded,
                                                                   refundRequired := !full)],
          history := Record(db.history, id, status, status))
    case ToExtend(id, proposed) =>
      db.(reservations := db.reservations[id := db.reservations[id].(holdExpiresAt := Some(proposed))],
          holds := RestampHolds(db.holds, id, proposed))
    case ToAdjust(user, balance, amount) => PostOver(db, user, Adjust, balance, amount, None)
  }

  /** What stays true of a reading however old it gets. */
  ghost predicate WellRead(db: Db, w: Reading) {
    && Addressed(db, w)
    && match w
       case ToCancel(id, status, items, _, _) => CanTransition(status, Cancelled) && items == db.reservations[id].items
       case ToRefund(id, _, payment, amount, _) => db.payments[payment].reservation == id && amount > 0
       case ToExtend(id, proposed) => proposed <= db.reservations[id].createdAt + MAX_HOLD_MS
       case ToAdjust(_, balance, amount) => amount != 0 && balance + amount >= 0
       case _ => true
  }

  /** The write finds what was read: the status, the money still there to refund, the balance. */
  predicate Fresh(db: Db, w: Reading)
    requires Addressed(db, w)
  {
    match w
    case ToAccept(id) => db.reservations[id].status == PaymentPending
    case ToCancel(id, status, _, _, over) =>
      && db.reservations[id].status == status
      && (over.Some? && RefundOpen(db, id) ==> db.balances[db.reservations[id].user] == over.value)
    case ToMarkNoShow(id) => db.reservations[id].status == Confirmed
    case ToRefund(id, status, payment, amount, _) =>
      db.reservations[id].status == status && amount <= db.payments[payment].amount - RefundedSum(db.refunds, payment)
    case ToExtend(_, _) => true
    case ToAdjust(user, balance, _) => db.balances[user] == balance
  }

  lemma ImmediateCancelIsAtomic(cfg: Config, db: Db, id: nat, initiateRefund: bool)
    requires AdminCancel(db, id, initiateRefund).Committed?
    ensures WriteBack(db, ReadFor(db, Cancel(id, initiateRefund)).value) == AdminCancel(db, id, initiateRefund).db
  {}

  lemma ImmediateStatusWriteIsAtomic(cfg: Config, db: Db, step: Step)
    requires step.Accept? || step.MarkNoShow?
    ensures var w := ReadFor(db, step);
            if w.Some? then WellRead(db, w.value) && Fresh(db, w.value) && WriteBack(db, w.value) == Apply(cfg, db, step)
            else Apply(cfg, db, step) == db
  {}

  lemma ImmediateRefundIsAtomic(cfg: Config, db: Db, id: nat, payment: nat, requested: Option<int>)
    ensures var w := ReadFor(db, RefundPayment(id, payment, requested));
            if w.Some? then WellRead(db, w.value) && Fresh(db, w.value)
                            && WriteBack(db, w.value) == AdminRefund(db, id, payment, requested).db
            else AdminRefund(db, id, payment, requested).RolledBack?
  {}

  /** Writing at once is the transaction that reads and writes in one step. */
  lemma ImmediateWriteIsAtomic(cfg: Config, db: Db, step: Step)
    requires ReadsFirst(step)
    ensures var w := ReadFor(db, step);
            if w.Some? then WellRead(db, w.value) && Fresh(db, w.value) && WriteBack(db, w.value) == Apply(cfg, db, step)
            else Apply(cfg, db, step) == db
  {
    match step
    case Accept(_) => ImmediateStatusWriteIsAtomic(cfg, db, step);
    case MarkNoShow(_) => ImmediateStatusWriteIsAtomic(cfg, db, step);
    case RefundPayment(id, payment, requested) => ImmediateRefundIsAtomic(cfg, db, id, payment, requested);
    case Cancel(id, initiateRefund) =>
      if AdminCancel(db, id, initiateRefund).Committed? {
        ImmediateCancelIsAtomic(cfg, db, id, initiateRefund);
      }
    case _ =>
  }

  // ---- acceptance, cancellation and no-show: the trail tells

  lemma WalkHasOneEnd(trail: seq<HistoryEntry>, start: ReservationStatus, a: ReservationStatus, b: ReservationStatus)
    requires Walk(trail, start, a) && Walk(trail, start, b)
    ensures a == b
  {}

  /** A row that starts from another status than the present one breaks the trail for good. */
  lemma WrongRowBreaksTrail(db: Db, db': Db, id: nat, e: HistoryEntry)
    requires id < |db.reservations| == |db'.reservations| && TrailOk(db, id)
    requires e.reservation == id && db'.history == db.history + [e] && e.from != db.reservations[id].status
    ensures !TrailOk(db', id)
  {
    var trail := Trail(db.history, id);
    HistorySnoc(db.history, e, id);
    assert (trail + [e])[..|trail|] == trail;
    if TrailOk(db', id) {
      WalkHasOneEnd(trail, PaymentPending, e.from, db.reservations[id].status);
    }
  }

  function StatusRead(w: Reading): ReservationStatus
    requires !w.ToExtend? && !w.ToAdjust?
  {
    match w
    case ToAccept(_) => PaymentPending
    case ToCancel(_, status, _, _, _) => status
    case ToMarkNoShow(_) => Confirmed
    case ToRefund(_, status, _, _, _) => status
  }

  lemma CancelWrites(db: Db, w: Reading)
    requires w.ToCancel? && Addressed(db, w)
    ensures var db' := WriteBack(db, w);
            && db'.reservations == db.reservations[w.id := db.reservations[w.id].(status := Cancelled, holdExpiresAt := None)]
            && db'.history == Record(db.history, w.id, w.status, Cancelled)
            && db'.payments == FlagRows(db.payments, w.holding) && db'.refunds == db.refunds
            && db'.holds == (if w.status == PaymentPending then ReleaseHolds(db.holds, w.id) else db.holds)
            && db'.inventory == (if w.status == Confirmed then RestoreItems(db.inventory, w.items) else db.inventory)
  {}

  lemma StaleStatusBreaksTrail(db: Db, w: Reading)
    requires TrailInv(db) && Addressed(db, w) && !w.ToExtend? && !w.ToAdjust?
    requires db.reservations[w.id].status != StatusRead(w)
    ensures !TrailInv(WriteBack(db, w))
  {
    var db' := WriteBack(db, w);
    assert TrailOk(db, w.id);
    if w.ToCancel? {
      CancelWrites(db, w);
    }
    WrongRowBreaksTrail(db, db', w.id, db'.history[|db.history|]);
  }

  /** A cancellation that finds its status writes what the atomic one would, but for the payments it flags. */
  lemma FreshCancelIsPlain(cfg: Config, db: Db, w: Reading)
    requires w.ToCancel? && WellRead(db, w) && Fresh(db, w)
    ensures var plain := Apply(cfg, db, Cancel(w.id, false));
            WriteBack(db, w) == plain.(payments := FlagRows(plain.payments, w.holding))
  {
    FreshRefundSame(db, w);
    var freed := db.(holds := if w.status == PaymentPending then ReleaseHolds(db.holds, w.id) else db.holds,
                     inventory := if w.status == Confirmed then RestoreItems(db.inventory, w.items) else db.inventory,
                     reservations := db.reservations[w.id := db.reservations[w.id].(status := Cancelled, holdExpiresAt := None)]);
    var refunded := RefundRedemption(freed, w.id);
    assert Apply(cfg, db, Cancel(w.id, false)) == refunded.(history := Record(refunded.history, w.id, w.status, Cancelled));
  }

  /** Read early or late, the balance is the same when the reading is fresh. */
  lemma FreshRefundSame(db: Db, w: Reading)
    requires w.ToCancel? && Addressed(db, w) && Fresh(db, w)
    ensures WriteBack(db, w) == WriteBack(db, w.(over := None))
  {
    if w.over.Some? {
      var freed := db.(holds := if w.status == PaymentPending then ReleaseHolds(db.holds, w.id) else db.holds,
                       inventory := if w.status == Confirmed then RestoreItems(db.inventory, w.items) else db.inventory,
                       reservations := db.reservations[w.id := db.reservations[w.id].(status := Cancelled, holdExpiresAt := None)]);
      FreshRefundIsPlain(freed, w.id, w.over.value);
    }
  }

  /** A cancellation that refunds coins over an old balance leaves an account the ledger contradicts. */
  lemma StaleRefundMiscounts(db: Db, w: Reading)
    requires AccountsOk(db.balances, db.ledger) && w.ToCancel? && Addressed(db, w) && w.over.Some?
    requires RefundOpen(db, w.id) && db.balances[db.reservations[w.id].user] != w.over.value
    ensures var end := WriteBack(db, w); !AccountsOk(end.balances, end.ledger)
  {
    LatePostMiscounts(db, db.reservations[w.id].user, RedeemRefund, w.over.value, db.reservations[w.id].coinsRedeemed, Some(w.id));
  }

  lemma FreshCancelKeepsInv(cfg: Config, db: Db, w: Reading)
    requires Inv(db) && w.ToCancel? && WellRead(db, w) && Fresh(db, w)
    ensures Inv(WriteBack(db, w))
  {
    StepKeepsInv(cfg, db, Cancel(w.id, false));
    FreshCancelIsPlain(cfg, db, w);
    FlaggingLeavesTheRest(Apply(cfg, db, Cancel(w.id, false)), w.holding);
  }

  lemma FlaggingLeavesTheRest(db: Db, rows: set<nat>)
    requires Inv(db)
    ensures Inv(db.(payments := FlagRows(db.payments, rows)))
  {
    var db' := db.(payments := FlagRows(db.payments, rows));
    forall id | 0 <= id < |db.reservations| ensures CoinRowOk(db', id) && TrailOk(db', id) {
      assert CoinRowOk(db, id) && TrailOk(db, id);
    }
  }

  /**
   * Acceptance, cancellation and no-show keep the invariants exactly when the status is still the one read, and
   * so is the balance a cancellation refunds coins to.
   */
  lemma StatusWriteKeepsExactly(cfg: Config, db: Db, w: Reading)
    requires Inv(db) && WellRead(db, w) && (w.ToAccept? || w.ToCancel? || w.ToMarkNoShow?)
    ensures Inv(WriteBack(db, w)) <==> Fresh(db, w)
  {
    if db.reservations[w.id].status != StatusRead(w) {
      StaleStatusBreaksTrail(db, w);
    } else if !Fresh(db, w) {
      StaleRefundMiscounts(db, w);
    } else if w.ToCancel? {
      FreshCancelKeepsInv(cfg, db, w);
    } else if w.ToAccept? {
      ImmediateStatusWriteIsAtomic(cfg, db, Accept(w.id));
      StepKeepsInv(cfg, db, Accept(w.id));
    } else {
      ImmediateStatusWriteIsAtomic(cfg, db, MarkNoShow(w.id));
      StepKeepsInv(cfg, db, MarkNoShow(w.id));
    }
  }

  // ---- refunds: the money tells too

  /** A refund written late keeps the refunds within the amount exactly when that much is still there. */
  lemma RefundWriteKeepsRefundsExactly(db: Db, w: Reading)
    requires RefundsOk(db.payments, db.refunds) && w.ToRefund? && Addressed(db, w) && w.amount > 0
    ensures var db' := WriteBack(db, w);
            RefundsOk(db'.payments, db'.refunds) <==> w.amount <= db.payments[w.payment].amount - RefundedSum(db.refunds, w.payment)
  {
    var db', refund := WriteBack(db, w), Refund(w.payment, w.amount);
    forall p { RefundSnoc(db.refunds, refund, p); }
    assert RefundedSum(db'.refunds, w.payment) == RefundedSum(db.refunds, w.payment) + w.amount;
    assert db'.payments[w.payment].amount == db.payments[w.payment].amount;
  }

  lemma RefundWriteKeepsTheRest(db: Db, w: Reading)
    requires Inv(db) && w.ToRefund? && WellRead(db, w) && db.reservations[w.id].status == w.status
    ensures var db' := WriteBack(db, w);
            StayInv(db') && CoinInv(db') && TrailInv(db') && PaymentsOk(db'.reservations, db'.payments)
  {
    var db' := WriteBack(db, w);
    QuietMoveKeepsCoins(db, db', w.id, w.status);
    assert Recorded(db, db', w.id);
    LoggedKeepsTrails(db, db');
    OneRewriteKeepsPayments(db.reservations, db.payments, db'.payments, w.payment);
  }

  lemma RefundWriteKeepsExactly(db: Db, w: Reading)
    requires Inv(db) && w.ToRefund? && WellRead(db, w)
    ensures Inv(WriteBack(db, w)) <==> Fresh(db, w)
  {
    RefundWriteKeepsRefundsExactly(db, w);
    if db.reservations[w.id].status != w.status {
      StaleStatusBreaksTrail(db, w);
    } else {
      RefundWriteKeepsTheRest(db, w);
    }
  }

  // ---- extension: always in step, though it can take minutes back

  /** A pending booking gets the proposed expiry, on its rows too. */
  lemma PendingExtendMoves(db: Db, db': Db, id: nat, proposed: Time)
    requires id < |db.reservations| && db.reservations[id].status == PaymentPending && StampOk(db.reservations[id])
    requires db'.inventory == db.inventory && db'.holds == RestampHolds(db.holds, id, proposed)
    requires db'.reservations == db.reservations[id := db.reservations[id].(holdExpiresAt := Some(proposed))]
    ensures Moved(db, db', id)
  {}

  /** Any other booking has no rows, and its expiry means nothing any more. */
  lemma IdleExtendMoves(db: Db, db': Db, id: nat, proposed: Time)
    requires id < |db.reservations| && db.reservations[id].status != PaymentPending && StampOk(db.reservations[id])
    requires db'.inventory == db.inventory && db'.holds == db.holds
    requires db'.reservations == db.reservations[id := db.reservations[id].(holdExpiresAt := Some(proposed))]
    ensures Moved(db, db', id)
  {}

  lemma ExtendWriteMoves(db: Db, w: Reading)
    requires StayInv(db) && w.ToExtend? && WellRead(db, w)
    ensures Moved(db, WriteBack(db, w), w.id) && WriteBack(db, w).now == db.now
  {
    assert RowOk(db.inventory, db.reservations, w.id) && HoldRowsMatch(db.reservations, db.holds, w.id);
    if db.reservations[w.id].status == PaymentPending {
      PendingExtendMoves(db, WriteBack(db, w), w.id, w.proposed);
    } else {
      NothingToRestamp(db.holds, w.id, w.proposed);
      IdleExtendMoves(db, WriteBack(db, w), w.id, w.proposed);
    }
  }

  lemma ExtendWriteKeepsStays(db: Db, w: Reading)
    requires StayInv(db) && w.ToExtend? && WellRead(db, w)
    ensures StayInv(WriteBack(db, w))
  {
    ExtendWriteMoves(db, w);
    MoveKeepsStays(db, WriteBack(db, w), w.id, WriteBack(db, w).reservations[w.id]);
  }

  lemma {:induction false} NothingToRestamp(holds: seq<Hold>, id: nat, t: Time)
    requires HoldsOf(holds, id) == []
    ensures RestampHolds(holds, id, t) == holds
  {
    if |holds| > 0 {
      var front, last := holds[..|holds| - 1], holds[|holds| - 1];
      assert last.reservation != id;
      NothingToRestamp(front, id, t);
      assert holds == front + [last];
    }
  }

  /** However late it is written, an extension keeps every invariant. */
  lemma ExtendWriteKeeps(db: Db, w: Reading)
    requires Inv(db) && w.ToExtend? && WellRead(db, w)
    ensures Inv(WriteBack(db, w))
  {
    var db' := WriteBack(db, w);
    ExtendWriteKeepsStays(db, w);
    assert AllTermsKept(db.reservations, db'.reservations);
    TermsCarryPayments(db.reservations, db'.reservations, db.payments);
    forall k | 0 <= k < |db'.reservations| ensures CoinRowOk(db', k) && TrailOk(db', k) && db'.reservations[k].totalAmount >= 0 {
      assert CoinRowOk(db, k) && TrailOk(db, k);
    }
  }

  /**
   * A late extension stays within the hour and never proposes less than it read, so it moves a pending hold
   * back exactly when somebody else has meanwhile extended past its proposal.
   */
  lemma LateExtensionShrinksExactly(read: Db, db: Db, user: UserId, id: nat)
    requires HoldBoundOk(read.now, read.reservations) && ReadFor(read, Extend(user, id)).Some?
    requires StayInv(db) && HoldBoundOk(db.now, db.reservations)
    requires id < |db.reservations| && db.reservations[id].createdAt == read.reservations[id].createdAt
    requires db.reservations[id].status == PaymentPending
    ensures var w := ReadFor(read, Extend(user, id)).value;
            var db' := WriteBack(db, w);
            && HoldBoundOk(db'.now, db'.reservations)
            && db.reservations[id].holdExpiresAt.Some? && db'.reservations[id].holdExpiresAt.Some?
            && w.proposed >= read.reservations[id].holdExpiresAt.value
            && (db'.reservations[id].holdExpiresAt.value < db.reservations[id].holdExpiresAt.value
                <==> w.proposed < db.reservations[id].holdExpiresAt.value)
  {
    assert RowOk(db.inventory, db.reservations, id);
  }

  // ---- coins

  lemma AdjustWriteKeepsExactly(cfg: Config, db: Db, w: Reading)
    requires Inv(db) && w.ToAdjust? && WellRead(db, w)
    ensures Inv(WriteBack(db, w)) <==> Fresh(db, w)
  {
    LatePostKeepsAccountsExactly(db, w.user, Adjust, w.balance, w.amount, None);
    if Fresh(db, w) {
      ImmediateWriteIsAtomic(cfg, db, AdjustCoins(w.user, w.amount));
      StepKeepsInv(cfg, db, AdjustCoins(w.user, w.amount));
    }
  }

  // ---- any number of operations between their readings and their writes

  lemma WriteKeepsExactly(cfg: Config, db: Db, w: Reading)
    requires Inv(db) && WellRead(db, w)
    ensures Inv(WriteBack(db, w)) <==> Fresh(db, w)
  {
    match w
    case ToRefund(_, _, _, _, _) => RefundWriteKeepsExactly(db, w);
    case ToExtend(_, _) => ExtendWriteKeeps(db, w);
    case ToAdjust(_, _, _) => AdjustWriteKeepsExactly(cfg, db, w);
    case _ => StatusWriteKeepsExactly(cfg, db, w);
  }

  /** An operation that has read, or a transaction that has read the balance it will post over. */
  datatype Request =
    | Request(reading: Reading, written: bool)
    | Posting(step: Step, user: UserId, balance: int, written: bool)

  datatype Sys = Sys(db: Db, requests: seq<Request>)

  datatype Move =
    | Begin(step: Step)
    | BeginPosting(step: Step)
    | Look(i: nat)
    | Finish(i: nat)
    | Elsewhere(step: Step)

  /** The rows a request will write are there. */
  predicate Reached(db: Db, r: Request) {
    if r.Request? then Addressed(db, r.reading) else r.user in db.balances
  }

  predicate Enabled(s: Sys, m: Move) {
    match m
    case Begin(step) => ReadsFirst(step) && ReadFor(s.db, step).Some?
    case BeginPosting(step) =>
      PostsCoins(step) && AccountOf(s.db, step).Some?
      && (step.Create? ==> step.req.coinsRedeemed <= s.db.balances[step.req.user])
    case Look(i) =>
      && i < |s.requests| && s.requests[i].Request? && !s.requests[i].written
      && s.requests[i].reading.ToCancel? && s.requests[i].reading.over.None? && s.requests[i].reading.id < |s.db.reservations|
      && s.db.reservations[s.requests[i].reading.id].user in s.db.balances
    case Finish(i) =>
      i < |s.requests| && !s.requests[i].written && Reached(s.db, s.requests[i])
    case Elsewhere(step) => !ReadsFirst(step)
  }

  /** The tables after the writes. */
  function Finished(cfg: Config, db: Db, r: Request): Db
    requires Reached(db, r)
  {
    if r.Request? then WriteBack(db, r.reading) else ApplyOver(cfg, db, r.step, r.user, r.balance)
  }

  /** What lasts of a request: its reading, or the account it posts to. */
  ghost predicate WellBegun(db: Db, r: Request) {
    if r.Request? then WellRead(db, r.reading)
    else PostsCoins(r.step) && AccountOf(db, r.step) == Some(r.user)
  }

  /** The writes find what the request has read, as far as they rely on it. */
  predicate StillFresh(cfg: Config, db: Db, r: Request)
    requires Reached(db, r)
  {
    if r.Request? then Fresh(db, r.reading)
    else PostsOver(cfg, db, r.step, r.user, r.balance) ==> db.balances[r.user] == r.balance
  }

  function Next(cfg: Config, s: Sys, m: Move): Sys
    requires Enabled(s, m)
  {
    match m
    case Begin(step) => s.(requests := s.requests + [Request(ReadFor(s.db, step).value, false)])
    case BeginPosting(step) =>
      var user := AccountOf(s.db, step).value;
      s.(requests := s.requests + [Posting(step, user, s.db.balances[user], false)])
    case Look(i) =>
      var w := s.requests[i].reading;
      s.(requests := s.requests[i := Request(w.(over := Some(s.db.balances[s.db.reservations[w.id].user])), false)])
    case Finish(i) => Sys(Finished(cfg, s.db, s.requests[i]), s.requests[i := s.requests[i].(written := true)])
    case Elsewhere(step) => s.(db := Apply(cfg, s.db, step))
  }

  /** The rows a reading names, and the terms it relies on, are as they were. */
  ghost predicate Lasting(db: Db, db': Db) {
    && AllTermsKept(db.reservations, db'.reservations)
    && AmountsKept(db.payments, db'.payments)
    && db.balances.Keys <= db'.balances.Keys
  }

  lemma LastingKeepsReadings(db: Db, db': Db, w: Reading)
    requires Lasting(db, db') && WellRead(db, w)
    ensures WellRead(db', w)
  {
    if !w.ToAdjust? {
      assert TermsKept(db.reservations[w.id], db'.reservations[w.id]);
    }
  }

  lemma StepKeepsAccounts(cfg: Config, db: Db, step: Step)
    ensures db.balances.Keys <= Apply(cfg, db, step).balances.Keys
  {
    if step.Notify? {
      NotifyCoinShape(db, step.n);
    }
  }

  lemma WriteIsLasting(db: Db, w: Reading)
    requires WellRead(db, w)
    ensures Lasting(db, WriteBack(db, w))
  {
    if w.ToCancel? {
      CancelWrites(db, w);
    }
  }

  lemma MoveIsLasting(cfg: Config, s: Sys, m: Move)
    requires SysInv(s) && Enabled(s, m)
    ensures Lasting(s.db, Next(cfg, s, m).db)
  {
    match m
    case Finish(i) =>
      var r := s.requests[i];
      if r.Request? {
        WriteIsLasting(s.db, r.reading);
      } else {
        PostingLasts(cfg, s.db, r.step, r.user, r.balance);
      }
    case Elsewhere(step) =>
      StepKeepsTerms(cfg, s.db, step);
      StepKeepsAmounts(cfg, s.db, step);
      StepKeepsAccounts(cfg, s.db, step);
    case _ =>
  }

  ghost predicate SysInv(s: Sys) {
    Inv(s.db) && forall i | 0 <= i < |s.requests| :: WellBegun(s.db, s.requests[i])
  }

  /** A write finds what its operation read. */
  predicate WritesFresh(cfg: Config, s: Sys, m: Move) {
    m.Finish? && Enabled(s, m) ==> StillFresh(cfg, s.db, s.requests[m.i])
  }

  lemma LastingKeepsRequests(db: Db, db': Db, r: Request)
    requires Lasting(db, db') && WellBegun(db, r)
    ensures WellBegun(db', r)
  {
    if r.Request? {
      LastingKeepsReadings(db, db', r.reading);
    } else if !r.step.Create? {
      assert TermsKept(db.reservations[r.step.id], db'.reservations[r.step.id]);
    }
  }

  lemma RequestsStayWell(cfg: Config, s: Sys, m: Move)
    requires SysInv(s) && Enabled(s, m)
    ensures var s' := Next(cfg, s, m);
            forall i | 0 <= i < |s'.requests| :: WellBegun(s'.db, s'.requests[i])
  {
    var s' := Next(cfg, s, m);
    MoveIsLasting(cfg, s, m);
    forall i | 0 <= i < |s'.requests| ensures WellBegun(s'.db, s'.requests[i]) {
      if i < |s.requests| {
        LastingKeepsRequests(s.db, s'.db, s.requests[i]);
      } else if m.Begin? {
        ImmediateWriteIsAtomic(cfg, s.db, m.step);
      }
    }
  }

  lemma FinishKeepsExactly(cfg: Config, db: Db, r: Request)
    requires Inv(db) && WellBegun(db, r)
    ensures Inv(Finished(cfg, db, r)) <==> StillFresh(cfg, db, r)
  {
    if r.Request? {
      WriteKeepsExactly(cfg, db, r.reading);
    } else {
      PostingKeepsExactly(cfg, db, r.step, r.user, r.balance);
    }
  }

  /** A move keeps the invariants exactly when it is not a write over something that has changed. */
  lemma MoveKeepsExactly(cfg: Config, s: Sys, m: Move)
    requires SysInv(s) && Enabled(s, m)
    ensures SysInv(Next(cfg, s, m)) <==> WritesFresh(cfg, s, m)
  {
    RequestsStayWell(cfg, s, m);
    match m
    case Finish(i) => FinishKeepsExactly(cfg, s.db, s.requests[i]);
    case Elsewhere(step) => StepKeepsInv(cfg, s.db, step);
    case _ =>
  }

  ghost function Play(cfg: Config, db: Db, moves: seq<Move>): Option<Sys> {
    if |moves| == 0 then Some(Sys(db, []))
    else
      var before := Play(cfg, db, moves[..|moves| - 1]);
      if before.Some? && Enabled(before.value, moves[|moves| - 1])
      then Some(Next(cfg, before.value, moves[|moves| - 1])) else None
  }

  lemma PlaySnoc(cfg: Config, db: Db, moves: seq<Move>, s: Sys, m: Move)
    requires Play(cfg, db, moves) == Some(s) && Enabled(s, m)
    ensures Play(cfg, db, moves + [m]) == Some(Next(cfg, s, m))
  {
    assert (moves + [m])[..|moves|] == moves;
  }

  ghost predicate FreshPlay(cfg: Config, db: Db, moves: seq<Move>) {
    |moves| == 0
    || (FreshPlay(cfg, db, moves[..|moves| - 1])
        && var before := Play(cfg, db, moves[..|moves| - 1]);
           before.Some? ==> WritesFresh(cfg, before.value, moves[|moves| - 1]))
  }

  /** Every state along the play satisfies the invariants. */
  ghost predicate InvAllAlong(cfg: Config, db: Db, moves: seq<Move>) {
    if |moves| == 0 then Inv(db)
    else InvAllAlong(cfg, db, moves[..|moves| - 1])
         && var s := Play(cfg, db, moves); s.Some? ==> Inv(s.value.db)
  }

  /**
   * With readings outside the transactions that write, and anything in between: all along the play the
   * stay, payment, coin and trail invariants hold exactly when every write finds what its operation read.
   */
  lemma {:induction false} PlayKeepsExactly(cfg: Config, db: Db, moves: seq<Move>)
    requires Initial(db) && Play(cfg, db, moves).Some?
    ensures InvAllAlong(cfg, db, moves) <==> FreshPlay(cfg, db, moves)
    ensures FreshPlay(cfg, db, moves) ==> SysInv(Play(cfg, db, moves).value)
  {
    if |moves| == 0 {
      InitialInv(db);
    } else {
      var front, last := moves[..|moves| - 1], moves[|moves| - 1];
      PlayKeepsExactly(cfg, db, front);
      if FreshPlay(cfg, db, front) {
        var s := Play(cfg, db, front).value;
        MoveKeepsExactly(cfg, s, last);
        RequestsStayWell(cfg, s, last);
      }
    }
  }

  /** What the invariants of a fresh play come to: rooms, charges, refunds, coins and trails, as along atomic runs. */
  lemma FreshPlaysAgree(cfg: Config, db: Db, moves: seq<Move>, slot: Slot, p: nat, q: nat, user: UserId, id: nat)
    requires Initial(db) && Play(cfg, db, moves).Some? && FreshPlay(cfg, db, moves)
    requires var s := Play(cfg, db, moves).value.db;
             slot in s.inventory && p < |s.payments| && q < |s.payments| && user in s.balances && id < |s.reservations|
    ensures var s := Play(cfg, db, moves).value.db;
            RoomsAgree(s, slot) && ChargedOnce(s, p, q) && CoinsAgree(s, user, id) && TrailReplays(s, id)
  {
    PlayKeepsExactly(cfg, db, moves);
    var s := Play(cfg, db, moves).value.db;
    InvRooms(s, slot);
    InvCoins(s, user, id);
    InvTrail(s, id);
  }

  // ---- hold lifetime

  lemma FinishKeepsHoldBound(cfg: Config, db: Db, r: Request)
    requires WellBegun(db, r) && HoldBoundOk(db.now, db.reservations) && cfg.holdTtlMs <= MAX_HOLD_MS
    ensures HoldBoundOk(Finished(cfg, db, r).now, Finished(cfg, db, r).reservations)
  {
    if r.Posting? {
      StepKeepsHoldBound(cfg, Trusting(db, r.user, r.balance), r.step);
    } else if r.reading.ToCancel? {
      CancelWrites(db, r.reading);
    }
  }

  lemma MoveKeepsHoldBound(cfg: Config, s: Sys, m: Move)
    requires SysInv(s) && Enabled(s, m) && HoldBoundOk(s.db.now, s.db.reservations) && cfg.holdTtlMs <= MAX_HOLD_MS
    ensures HoldBoundOk(Next(cfg, s, m).db.now, Next(cfg, s, m).db.reservations)
  {
    match m
    case Finish(i) => FinishKeepsHoldBound(cfg, s.db, s.requests[i]);
    case Elsewhere(step) => StepKeepsHoldBound(cfg, s.db, step);
    case _ =>
  }

  /** No late extension takes a hold past its hour either. */
  lemma {:induction false} PlayKeepsHoldBound(cfg: Config, db: Db, moves: seq<Move>)
    requires Initial(db) && cfg.holdTtlMs <= MAX_HOLD_MS && Play(cfg, db, moves).Some? && FreshPlay(cfg, db, moves)
    ensures var s := Play(cfg, db, moves).value.db; HoldBoundOk(s.now, s.reservations)
  {
    if |moves| == 0 {
      InitialInv(db);
    } else {
      var front := moves[..|moves| - 1];
      PlayKeepsHoldBound(cfg, db, front);
      PlayKeepsExactly(cfg, db, front);
      MoveKeepsHoldBound(cfg, Play(cfg, db, front).value, moves[|moves| - 1]);
    }
  }

  // ---- no way back

  predicate Settled(status: ReservationStatus) { Rank(status) >= Rank(Confirmed) }

  lemma FinishLeavesSettled(cfg: Config, db: Db, r: Request, id: nat)
    requires WellBegun(db, r) && id < |db.reservations| && Settled(db.reservations[id].status)
    ensures id < |Finished(cfg, db, r).reservations| && Settled(Finished(cfg, db, r).reservations[id].status)
  {
    if r.Request? {
      WriteLeavesSettled(db, r.reading, id);
    } else {
      StepLeavesSettled(cfg, Trusting(db, r.user, r.balance), r.step, id);
    }
  }

  lemma WriteLeavesSettled(db: Db, w: Reading, id: nat)
    requires Addressed(db, w) && id < |db.reservations| && Settled(db.reservations[id].status)
    ensures id < |WriteBack(db, w).reservations| && Settled(WriteBack(db, w).reservations[id].status)
  {
    if w.ToCancel? {
      CancelWrites(db, w);
    }
  }

  /** However stale the writes are, a booking once confirmed or ended never waits for payment or expires again. */
  lemma MoveLeavesSettled(cfg: Config, s: Sys, m: Move, id: nat)
    requires (forall i | 0 <= i < |s.requests| :: WellBegun(s.db, s.requests[i])) && Enabled(s, m)
    requires id < |s.db.reservations| && Settled(s.db.reservations[id].status)
    ensures id < |Next(cfg, s, m).db.reservations| && Settled(Next(cfg, s, m).db.reservations[id].status)
  {
    match m
    case Finish(i) => FinishLeavesSettled(cfg, s.db, s.requests[i], id);
    case Elsewhere(step) => StepLeavesSettled(cfg, s.db, step, id);
    case _ =>
  }

  lemma StepLeavesSettled(cfg: Config, db: Db, step: Step, id: nat)
    requires id < |db.reservations| && Settled(db.reservations[id].status)
    ensures id < |Apply(cfg, db, step).reservations| && Settled(Apply(cfg, db, step).reservations[id].status)
  {
    if !step.Create? {
      StepLogs(cfg, db, step);
      LoggedLeavesSettled(db, Apply(cfg, db, step), id);
    }
  }

  lemma LoggedLeavesSettled(db: Db, db': Db, id: nat)
    requires Logged(db, db') && id < |db.reservations| && Settled(db.reservations[id].status)
    ensures id < |db'.reservations| && Settled(db'.reservations[id].status)
  {
    if !StatusesKept(db, db') {
      var k :| 0 <= k < |db.reservations| && Recorded(db, db', k);
    }
  }

  // ---- rooms

  /** What a late acceptance or extension would have to look at: a live hold, or rooms for the stay. */
  ghost predicate GuardsRooms(s: Sys, m: Move) {
    m.Finish? && Enabled(s, m) && s.requests[m.i].Request? ==>
      match s.requests[m.i].reading
      case ToAccept(id) => StillRoomy(s.db, id)
      case ToExtend(id, proposed) =>
        s.db.reservations[id].status == PaymentPending && proposed > s.db.now ==> StillRoomy(s.db, id)
      case _ => true
  }

  ghost predicate StillRoomy(db: Db, id: nat)
    requires id < |db.reservations|
  {
    HoldLive(db.reservations[id], db.now) || (|db.reservations[id].items| == 1 && Fits(db, db.reservations[id].items[0], db.now))
  }

  lemma LateExtensionOversellsExactly(db: Db, w: Reading)
    requires StayInv(db) && NoOversell(db) && w.ToExtend? && WellRead(db, w)
    ensures NoOversell(WriteBack(db, w))
            <==> (db.reservations[w.id].status == PaymentPending && w.proposed > db.now ==> StillRoomy(db, w.id))
  {
    var db', id := WriteBack(db, w), w.id;
    ExtendWriteMoves(db, w);
    if db.reservations[id].status == PaymentPending && w.proposed > db.now {
      RevivedOrLive(db, db', id);
    } else {
      forall slot | slot in db.inventory
        ensures Weight(db'.reservations[id], slot, db.now) <= Weight(db.reservations[id], slot, db.now)
      {
        ItemDemand(db, id, slot);
      }
      LighterMoveKeepsCapacity(db, db', id);
    }
  }

  lemma FreshCancelKeepsRooms(cfg: Config, db: Db, w: Reading)
    requires Inv(db) && NoOversell(db) && w.ToCancel? && WellRead(db, w) && Fresh(db, w)
    ensures NoOversell(WriteBack(db, w))
  {
    StepKeepsInv(cfg, db, Cancel(w.id, false));
    StepKeepsCapacity(cfg, db, Cancel(w.id, false));
    FreshCancelIsPlain(cfg, db, w);
    SameStaysKeepCapacity(Apply(cfg, db, Cancel(w.id, false)), WriteBack(db, w));
  }

  lemma FreshWriteKeepsRoomsExactly(cfg: Config, s: Sys, i: nat)
    requires SysInv(s) && NoOversell(s.db) && Enabled(s, Finish(i)) && WritesFresh(cfg, s, Finish(i))
    ensures NoOversell(Finished(cfg, s.db, s.requests[i])) <==> GuardsRooms(s, Finish(i))
  {
    if s.requests[i].Posting? {
      PostingKeepsRooms(cfg, s.db, s.requests[i].step, s.requests[i].user, s.requests[i].balance);
      return;
    }
    var db, w := s.db, s.requests[i].reading;
    match w
    case ToAccept(id) =>
      ImmediateWriteIsAtomic(cfg, db, Accept(id));
      AcceptOversellsExactly(db, id);
    case ToCancel(_, _, _, _, _) => FreshCancelKeepsRooms(cfg, db, w);
    case ToMarkNoShow(id) =>
      ImmediateWriteIsAtomic(cfg, db, MarkNoShow(id));
      StepKeepsCapacity(cfg, db, MarkNoShow(id));
    case ToExtend(_, _) => LateExtensionOversellsExactly(db, w);
    case _ => SameStaysKeepCapacity(db, WriteBack(db, w));
  }

  ghost predicate RoomsAllAlong(cfg: Config, db: Db, moves: seq<Move>) {
    if |moves| == 0 then NoOversell(db)
    else RoomsAllAlong(cfg, db, moves[..|moves| - 1])
         && var s := Play(cfg, db, moves); s.Some? ==> NoOversell(s.value.db)
  }

  ghost predicate GuardedPlay(cfg: Config, db: Db, moves: seq<Move>) {
    |moves| == 0
    || (GuardedPlay(cfg, db, moves[..|moves| - 1])
        && var before := Play(cfg, db, moves[..|moves| - 1]);
           before.Some? ==> GuardsRooms(before.value, moves[|moves| - 1]))
  }

  /** All along a play whose writes are fresh every night stays within its rooms exactly when revivals are guarded. */
  lemma {:induction false} PlayOversellsExactly(cfg: Config, db: Db, moves: seq<Move>)
    requires Initial(db) && Play(cfg, db, moves).Some? && FreshPlay(cfg, db, moves)
    ensures RoomsAllAlong(cfg, db, moves) <==> GuardedPlay(cfg, db, moves)
    ensures RoomsAllAlong(cfg, db, moves) ==> NoOversell(Play(cfg, db, moves).value.db)
  {
    if |moves| == 0 {
      InitialInv(db);
    } else {
      var front, last := moves[..|moves| - 1], moves[|moves| - 1];
      PlayOversellsExactly(cfg, db, front);
      PlayKeepsExactly(cfg, db, front);
      if RoomsAllAlong(cfg, db, front) {
        MoveKeepsRoomsExactly(cfg, Play(cfg, db, front).value, last);
      }
    }
  }

  lemma MoveKeepsRoomsExactly(cfg: Config, s: Sys, m: Move)
    requires SysInv(s) && NoOversell(s.db) && Enabled(s, m) && WritesFresh(cfg, s, m)
    ensures NoOversell(Next(cfg, s, m).db) <==> GuardsRooms(s, m)
  {
    match m
    case Finish(i) => FreshWriteKeepsRoomsExactly(cfg, s, i);
    case Elsewhere(step) => StepKeepsCapacity(cfg, s.db, step);
    case _ =>
  }
}
