/** Sold-counter refinement and no-oversell, transaction by transaction. */
module StaySteps {
  import opened Basics
  import opened Lifecycle
  import opened Tables
  import opened Inventory
  import opened Coins
  import opened Transactions
  import opened Invariants
  import opened StayProofs

  /** Converting hold rows sells exactly the reservation's demand. */
  lemma ConvertMoves(db: Db, id: nat)
    requires StayInv(db) && id < |db.reservations| && db.reservations[id].status == PaymentPending
    ensures var db' := Confirm(ConvertHoldsToSold(db, id), id); Moves(db, db', id, db'.reservations[id])
  {
    var r := db.reservations[id];
    assert RowOk(db.inventory, db.reservations, id) && HoldRowsMatch(db.reservations, db.holds, id);
    assert r.items == [r.items[0]];
    forall slot | slot in db.inventory
      ensures RowQuantity(HoldsOf(db.holds, id), slot) == Demand(r.items, slot)
    {
      BuiltDemand(id, r.items[0], r.holdExpiresAt.value, slot);
    }
  }

  /** Selling a reservation's items afresh moves it from unsold to sold. */
  lemma SellMoves(db: Db, id: nat)
    requires StayInv(db) && id < |db.reservations| && CanTransition(db.reservations[id].status, Confirmed)
    ensures var db' := Confirm(SoldItems(db, id), id); Moves(db, db', id, db'.reservations[id])
  {
    SellItemsAddsDemand(db.inventory, db.reservations[id].items);
  }

  lemma {:induction false} SoldByCovers(rs: seq<Reservation>, id: nat, slot: Slot)
    requires id < |rs| && forall k | 0 <= k < |rs| :: Demand(rs[k].items, slot) >= 0
    ensures SoldBy(rs, slot) >= SoldWeight(rs[id], slot)
  {
    var ws := SoldWeights(rs, slot);
    SumUpdate(ws, id, 0);
    SumZero(seq(|ws|, i => 0));
    SumMono(seq(|ws|, i => 0), ws[id := 0]);
  }

  lemma DemandsNonNegative(db: Db, slot: Slot)
    requires StayInv(db)
    ensures forall k | 0 <= k < |db.reservations| :: Demand(db.reservations[k].items, slot) >= 0
  {
    forall k | 0 <= k < |db.reservations| ensures Demand(db.reservations[k].items, slot) >= 0 {
      assert RowOk(db.inventory, db.reservations, k);
      DemandNonNegative(db.reservations[k].items, slot);
    }
  }

  /** In a consistent state the counters include the stay, so restoring never meets the clamp. */
  lemma RestoreNeverClamps(db: Db, id: nat)
    requires StayInv(db) && id < |db.reservations| && db.reservations[id].status == Confirmed
    ensures forall slot | slot in db.inventory ::
              && db.inventory[slot].soldRooms >= Demand(db.reservations[id].items, slot)
              && slot in RestoreItems(db.inventory, db.reservations[id].items)
              && RestoreItems(db.inventory, db.reservations[id].items)[slot]
                 == db.inventory[slot].(soldRooms := db.inventory[slot].soldRooms - Demand(db.reservations[id].items, slot))
    ensures RestoreItems(db.inventory, db.reservations[id].items).Keys == db.inventory.Keys
  {
    forall slot | slot in db.inventory
      ensures db.inventory[slot].soldRooms >= Demand(db.reservations[id].items, slot)
    {
      DemandsNonNegative(db, slot);
      SoldByCovers(db.reservations, id, slot);
    }
    assert RowOk(db.inventory, db.reservations, id);
    RestoreItemsTakesDemand(db.inventory, db.reservations[id].items);
  }

  lemma CancelMoves(db: Db, id: nat, initiateRefund: bool)
    requires StayInv(db) && id < |db.reservations| && CanTransition(db.reservations[id].status, Cancelled)
    ensures var db' := AdminCancel(db, id, initiateRefund).db; Moves(db, db', id, db'.reservations[id])
  {
    assert RowOk(db.inventory, db.reservations, id);
    if db.reservations[id].status == Confirmed {
      RestoreNeverClamps(db, id);
    }
  }

  /** Appending one pending reservation with the hold rows built for it. */
  lemma BookedKeepsStays(db: Db, db': Db, r: Reservation, t: Time)
    requires StayInv(db)
    requires r.status == PaymentPending && r.holdExpiresAt == Some(t) && r.confirmedAt.None?
    requires ItemOk(db.inventory, r)
    requires db'.inventory == db.inventory && db'.reservations == db.reservations + [r]
    requires db'.holds == db.holds + BuildHoldRows(|db.reservations|, r.items[0], t)
    ensures StayInv(db')
  {
    var id := |db.reservations|;
    forall k | 0 <= k < |db'.reservations| ensures RowOk(db'.inventory, db'.reservations, k) {
      if k < id {
        assert RowOk(db.inventory, db.reservations, k);
      }
    }
    forall slot | slot in db'.inventory ensures db'.inventory[slot].soldRooms == SoldBy(db'.reservations, slot) {
      LoadSnoc(db.reservations, r, slot, db.now);
    }
    BookedKeepsHolds(db, db', r, t);
  }

  lemma BookedKeepsHolds(db: Db, db': Db, r: Reservation, t: Time)
    requires HoldsOk(db.reservations, db.holds)
    requires r.status == PaymentPending && r.holdExpiresAt == Some(t) && |r.items| == 1
    requires db'.reservations == db.reservations + [r]
    requires db'.holds == db.holds + BuildHoldRows(|db.reservations|, r.items[0], t)
    ensures HoldsOk(db'.reservations, db'.holds)
  {
    var id := |db.reservations|;
    var rows := BuildHoldRows(id, r.items[0], t);
    forall k | 0 <= k < |db'.reservations| ensures HoldRowsMatch(db'.reservations, db'.holds, k) {
      HoldsOfAppend(db.holds, rows, k);
      HoldsOfUniform(rows, id, k);
      if k < id {
        assert HoldRowsMatch(db.reservations, db.holds, k);
      } else {
        NoRowsFor(db.holds, id);
      }
    }
  }

  lemma CreateBooks(cfg: Config, db: Db, req: BookingRequest)
    requires CreateBooking(cfg, db, req).Committed?
    ensures var db' := CreateBooking(cfg, db, req).db;
            var r := NewReservation(cfg, req, db.now);
            && db'.inventory == db.inventory && db'.reservations == db.reservations + [r]
            && db'.holds == db.holds + BuildHoldRows(|db.reservations|, req.item, db.now + cfg.holdTtlMs)
            && ItemOk(db.inventory, r)
            && Fits(db, req.item, db.now)
  {
    AvailableIsFits(db, req.item, db.now);
  }

  /** A booking appends one pending reservation with its hold rows. */
  lemma CreateKeepsStays(cfg: Config, db: Db, req: BookingRequest)
    requires StayInv(db) && CreateBooking(cfg, db, req).Committed?
    ensures StayInv(CreateBooking(cfg, db, req).db)
  {
    CreateBooks(cfg, db, req);
    BookedKeepsStays(db, CreateBooking(cfg, db, req).db, NewReservation(cfg, req, db.now), db.now + cfg.holdTtlMs);
  }

  lemma {:induction false} NoRowsFor(holds: seq<Hold>, id: nat)
    requires forall i | 0 <= i < |holds| :: holds[i].reservation < id
    ensures HoldsOf(holds, id) == []
  {
    if |holds| > 0 {
      NoRowsFor(holds[..|holds| - 1], id);
    }
  }

  /** The reservation holds nothing at the instant: lapsed or no longer pending. */
  predicate HeldAtZero(r: Reservation, now: Time) {
    !Holding(r.status) || !HoldLive(r, now)
  }

  /** What a notification does to every table but the payments: nothing, or one of two confirmations. */
  lemma NotifyShapes(db: Db, n: Notification)
    ensures var db', id := ProcessNotification(db, n).0, n.reservation;
            || SameButPayments(db, db')
            || (id < |db.reservations| && OnTime(db, id) && SameButPayments(Confirm(ConvertHoldsToSold(db, id), id), db'))
            || (id < |db.reservations| && !OnTime(db, id) && CanTransition(db.reservations[id].status, Confirmed)
                && ItemsAvailable(db, db.reservations[id].items) && SameButPayments(Confirm(SoldItems(db, id), id), db'))
  {}

  ghost predicate SameButPayments(db: Db, db': Db) {
    db'.(payments := db.payments) == db
  }

  function SoldItems(db: Db, id: nat): Db
    requires id < |db.reservations|
  {
    db.(inventory := SellItems(db.inventory, db.reservations[id].items), holds := ReleaseHolds(db.holds, id))
  }

  ghost predicate SameStays(db: Db, db': Db) {
    db'.inventory == db.inventory && db'.reservations == db.reservations && db'.holds == db.holds
  }

  /** Off the on-time path a consistent reservation holds nothing any more. */
  lemma NotOnTimeHoldsNothing(db: Db, id: nat)
    requires StayInv(db) && id < |db.reservations| && !OnTime(db, id)
    ensures HeldAtZero(db.reservations[id], db.now)
  {
    assert RowOk(db.inventory, db.reservations, id) && HoldRowsMatch(db.reservations, db.holds, id);
  }

  /** A notification either leaves the stay tables alone or confirms its reservation. */
  lemma NotifyStays(db: Db, n: Notification)
    requires StayInv(db)
    ensures var db', id := ProcessNotification(db, n).0, n.reservation;
            || SameStays(db, db')
            || (id < |db.reservations| && |db'.reservations| == |db.reservations|
                && Moves(db, db', id, db'.reservations[id]) && StampOk(db'.reservations[id])
                && db'.reservations[id].status == Confirmed
                && (OnTime(db, id) || (HeldAtZero(db.reservations[id], db.now) && ItemsAvailable(db, db.reservations[id].items))))
  {
    var db', id := ProcessNotification(db, n).0, n.reservation;
    NotifyShapes(db, n);
    if !SameStays(db, db') {
      if OnTime(db, id) {
        ConvertMoves(db, id);
      } else {
        SellMoves(db, id);
        NotOnTimeHoldsNothing(db, id);
      }
    }
  }

  lemma ExtendMoves(db: Db, user: UserId, id: nat)
    requires StayInv(db) && ExtensionApplies(db, user, id)
    ensures var db' := TryExtendHold(db, user, id).db; Moves(db, db', id, db'.reservations[id]) && StampOk(db'.reservations[id])
  {
    assert RowOk(db.inventory, db.reservations, id);
  }

  /** The guards under which the extension really rewrites the hold. */
  predicate ExtensionApplies(db: Db, user: UserId, id: nat) {
    && id < |db.reservations|
    && var r := db.reservations[id];
    && r.user == user && r.status == PaymentPending && r.holdExpiresAt.Some?
    && r.holdExpiresAt.value - db.now <= HOLD_EXTEND_THRESHOLD_MS
    && Min(r.holdExpiresAt.value + HOLD_EXTEND_BY_MS, r.createdAt + MAX_HOLD_MS) > db.now
  }

  /** `id` is where the step's reservation is, when it rewrites one. */
  function Target(step: Step): Option<nat> {
    match step
    case Extend(_, id) => Some(id)
    case Expire(id) => Some(id)
    case Complete(id) => Some(id)
    case CreditEarn(id) => Some(id)
    case Notify(n) => Some(n.reservation)
    case Accept(id) => Some(id)
    case Cancel(id, _) => Some(id)
    case MarkNoShow(id) => Some(id)
    case _ => None
  }

  /** The step rewrote reservation `id`, with its hold rows and counters following. */
  ghost predicate Moved(db: Db, db': Db, id: nat) {
    && id < |db.reservations| && |db'.reservations| == |db.reservations|
    && Moves(db, db', id, db'.reservations[id]) && StampOk(db'.reservations[id])
  }

  ghost predicate Kept(db: Db, db': Db, id: nat) {
    SameStays(db, db') || Moved(db, db', id)
  }

  lemma ExtendStays(db: Db, user: UserId, id: nat)
    requires StayInv(db)
    ensures Kept(db, Commit(db, TryExtendHold(db, user, id)), id)
  {
    if ExtensionApplies(db, user, id) {
      ExtendMoves(db, user, id);
    }
  }

  lemma ExpireStays(db: Db, id: nat)
    requires StayInv(db)
    ensures Kept(db, ExpireReservation(db, id).0, id)
  {
    if id < |db.reservations| {
      assert RowOk(db.inventory, db.reservations, id);
    }
  }

  lemma CreditStays(db: Db, id: nat)
    requires StayInv(db)
    ensures Kept(db, CreditEarnOnComplete(db, id).0, id)
  {
    if id < |db.reservations| {
      assert RowOk(db.inventory, db.reservations, id);
    }
  }

  lemma CompleteStays(db: Db, id: nat)
    requires StayInv(db)
    ensures Kept(db, CompleteStay(db, id).0, id)
  {
    if id < |db.reservations| {
      assert RowOk(db.inventory, db.reservations, id);
    }
  }

  lemma AcceptStays(db: Db, id: nat)
    requires StayInv(db)
    ensures Kept(db, Commit(db, AdminAccept(db, id)), id)
  {
    if id < |db.reservations| && db.reservations[id].status == PaymentPending {
      ConvertMoves(db, id);
    }
  }

  lemma CancelStays(db: Db, id: nat, refund: bool)
    requires StayInv(db)
    ensures Kept(db, Commit(db, AdminCancel(db, id, refund)), id)
  {
    if id < |db.reservations| && CanTransition(db.reservations[id].status, Cancelled) {
      CancelMoves(db, id, refund);
    }
  }

  lemma NoShowStays(db: Db, id: nat)
    requires StayInv(db)
    ensures Kept(db, Commit(db, AdminNoShow(db, id)), id)
  {
    if id < |db.reservations| {
      assert RowOk(db.inventory, db.reservations, id);
    }
  }

  lemma OtherStays(cfg: Config, db: Db, step: Step)
    requires !step.Create? && Target(step).None?
    ensures SameStays(db, Apply(cfg, db, step))
  {}

  /** Every step other than creation leaves the stay tables alone or moves its own reservation. */
  lemma StepMoves(cfg: Config, db: Db, step: Step)
    requires StayInv(db) && !step.Create?
    ensures if Target(step).None? then SameStays(db, Apply(cfg, db, step)) else Kept(db, Apply(cfg, db, step), Target(step).value)
  {
    match step
    case Extend(user, id) => ExtendStays(db, user, id);
    case Expire(id) => ExpireStays(db, id);
    case Complete(id) => CompleteStays(db, id);
    case CreditEarn(id) => CreditStays(db, id);
    case Notify(n) => NotifyStays(db, n);
    case Accept(id) => AcceptStays(db, id);
    case Cancel(id, refund) => CancelStays(db, id, refund);
    case MarkNoShow(id) => NoShowStays(db, id);
    case _ => OtherStays(cfg, db, step);
  }

  /** Sold-counter refinement and hold-row agreement survive every transaction. */
  lemma StepKeepsStays(cfg: Config, db: Db, step: Step)
    requires StayInv(db)
    ensures StayInv(Apply(cfg, db, step))
  {
    if step.Create? {
      if CreateBooking(cfg, db, step.req).Committed? {
        CreateKeepsStays(cfg, db, step.req);
      }
    } else {
      StepMoves(cfg, db, step);
      var db' := Apply(cfg, db, step);
      if Target(step).Some? && Moved(db, db', Target(step).value) {
        MoveKeepsStays(db, db', Target(step).value, db'.reservations[Target(step).value]);
      }
    }
  }
}
