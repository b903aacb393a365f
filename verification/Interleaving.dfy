/** Bookings, confirmations and expiries as statements, interleaved in any way with each other and the clock. */
module Interleaving {
  import opened Basics
  import opened Lifecycle
  import opened Tables
  import opened Inventory
  import opened Transactions
  import opened Invariants
  import opened StayProofs
  import opened StaySteps
  import opened Capacity

  // Row locks last until the transaction finishes, a statement sees what is committed when it runs, and a
  // transaction's own writes appear at its commit, all at once. Each transaction fixes its `now` before it
  // waits for any lock, except expiry, which reads the clock once it owns the reservation.

  datatype Kind = Booking(req: BookingRequest) | Confirming(id: nat) | Expiring(id: nat)

  /** How a confirmation means to get its rooms, decided once it owns the reservation. */
  datatype Mode = Undecided | FromHolds | FromItems

  datatype Phase = AwaitingReservation | LockingNights | Approved | Written | Finished

  datatype Txn = Txn(
    kind: Kind, now: Time, item: Item, mode: Mode, phase: Phase,
    locked: nat, seen: map<Slot, InventoryRow>)

  /** The committed tables with the clock, and every transaction ever begun. */
  datatype Sys = Sys(db: Db, txns: seq<Txn>)

  datatype Move =
    | BeginBooking(req: BookingRequest)
    | BeginConfirm(id: nat)
    | BeginExpiry(id: nat)
    | LockReservation(i: nat)
    | LockNight(i: nat)
    | Decide(i: nat)
    | Write(i: nat)
    | CommitTxn(i: nat)
    | Abort(i: nat)
    | Tick(elapsed: nat)

  predicate OwnsReservation(t: Txn, id: nat) {
    !t.kind.Booking? && t.kind.id == id && t.phase != AwaitingReservation && t.phase != Finished
  }

  /** The row locks a transaction holds: the nights of its item it has reached, in date order. */
  predicate OwnsNight(t: Txn, slot: Slot) {
    t.phase != Finished && Covers(t.item, slot) && slot.night < t.item.checkIn + t.locked
  }

  predicate AllNightsLocked(t: Txn) {
    t.locked == Max(0, t.item.checkOut - t.item.checkIn)
  }

  /** The availability check: locked rows as read under their locks, holds as committed now, at the stale clock. */
  predicate CheckPasses(db: Db, t: Txn) {
    var nights := EachNight(t.item.checkIn, t.item.checkOut);
    forall k | 0 <= k < |nights| ::
      var slot := Slot(t.item.roomType, nights[k]);
      && slot in t.seen
      && ComputeFreeRooms(t.seen[slot], ActiveHoldQuantity(db.holds, db.reservations, slot, t.now)) >= t.item.quantity
  }

  const NO_ITEM := Item(0, 0, 0, 0)

  predicate ValidRequest(req: BookingRequest) {
    req.item.quantity >= 1 && req.item.checkIn < req.item.checkOut
  }

  ghost predicate Enabled(s: Sys, m: Move) {
    match m
    case BeginBooking(req) => ValidRequest(req)
    case LockReservation(i) =>
      && i < |s.txns| && s.txns[i].phase == AwaitingReservation && !s.txns[i].kind.Booking?
      && s.txns[i].kind.id < |s.db.reservations|
      && forall j | 0 <= j < |s.txns| :: !OwnsReservation(s.txns[j], s.txns[i].kind.id)
    case LockNight(i) =>
      && i < |s.txns| && s.txns[i].phase == LockingNights && !AllNightsLocked(s.txns[i])
      && var slot := NextNight(s.txns[i]);
         slot in s.db.inventory ==> forall j | 0 <= j < |s.txns| :: !OwnsNight(s.txns[j], slot)
    case Decide(i) => i < |s.txns| && s.txns[i].phase == LockingNights && AllNightsLocked(s.txns[i])
    case Write(i) => i < |s.txns| && s.txns[i].phase == Approved
    case CommitTxn(i) => i < |s.txns| && s.txns[i].phase == Written
    case Abort(i) => i < |s.txns|
    case _ => true
  }

  function NextNight(t: Txn): Slot {
    Slot(t.item.roomType, t.item.checkIn + t.locked)
  }

  /** What a transaction does once it owns its reservation. */
  function Resolve(db: Db, t: Txn): Txn
    requires !t.kind.Booking? && t.kind.id < |db.reservations|
  {
    var r := db.reservations[t.kind.id];
    if t.kind.Expiring? then
      t.(now := db.now, phase := if Expirable(r, db.now) then Approved else Finished)
    else if (r.status != PaymentPending && r.status != Expired) || |r.items| == 0 then t.(phase := Finished)
    else if r.status == PaymentPending && HoldLive(r, t.now) && |HoldsOf(db.holds, t.kind.id)| > 0 then
      t.(item := r.items[0], mode := FromHolds, phase := LockingNights)
    else t.(item := r.items[0], mode := FromItems, phase := LockingNights)
  }

  /** Takes the next night's row lock and reads the row under it; a night without a row has nothing to lock. */
  function LockNext(db: Db, t: Txn): Txn {
    var slot := NextNight(t);
    t.(locked := t.locked + 1, seen := if slot in db.inventory then t.seen[slot := db.inventory[slot]] else t.seen)
  }

  /** On-time confirmations convert unchecked; the others are approved when their check passes. */
  function Judge(db: Db, t: Txn): Txn {
    t.(phase := if t.mode == FromHolds || CheckPasses(db, t) then Approved else Finished)
  }

  /** The tables after a commit; stamps carry the transaction's own clock reading. */
  function Effect(cfg: Config, db: Db, t: Txn): Db {
    match t.kind
    case Booking(req) =>
      db.(reservations := db.reservations + [NewReservation(cfg, req, t.now)],
          holds := db.holds + BuildHoldRows(|db.reservations|, req.item, t.now + cfg.holdTtlMs))
    case Confirming(id) =>
      var at := db.(now := t.now);
      if id < |db.reservations| && CanTransition(db.reservations[id].status, Confirmed) then
        (if t.mode == FromHolds then Confirm(ConvertHoldsToSold(at, id), id)
         else Confirm(SoldItems(at, id), id)).(now := db.now)
      else db
    case Expiring(id) => ExpireReservation(db.(now := t.now), id).0.(now := db.now)
  }

  function Next(cfg: Config, s: Sys, m: Move): Sys
    requires Enabled(s, m)
  {
    match m
    case BeginBooking(req) =>
      s.(txns := s.txns + [Txn(Booking(req), s.db.now, req.item, Undecided, LockingNights, 0, map[])])
    case BeginConfirm(id) =>
      s.(txns := s.txns + [Txn(Confirming(id), s.db.now, NO_ITEM, Undecided, AwaitingReservation, 0, map[])])
    case BeginExpiry(id) =>
      s.(txns := s.txns + [Txn(Expiring(id), s.db.now, NO_ITEM, Undecided, AwaitingReservation, 0, map[])])
    case LockReservation(i) => s.(txns := s.txns[i := Resolve(s.db, s.txns[i])])
    case LockNight(i) => s.(txns := s.txns[i := LockNext(s.db, s.txns[i])])
    case Decide(i) => s.(txns := s.txns[i := Judge(s.db, s.txns[i])])
    case Write(i) => s.(txns := s.txns[i := s.txns[i].(phase := Written)])
    case CommitTxn(i) => Sys(Effect(cfg, s.db, s.txns[i]), s.txns[i := s.txns[i].(phase := Finished)])
    case Abort(i) => s.(txns := s.txns[i := s.txns[i].(phase := Finished)])
    case Tick(elapsed) => s.(db := s.db.(now := s.db.now + elapsed))
  }

  // ---- the invariant

  predicate Decided(t: Txn) {
    t.phase == Approved || t.phase == Written
  }

  /** Rooms on a night that only the transaction itself can take: free ones, and those it holds already. */
  function Reach(db: Db, t: Txn, slot: Slot): int
    requires slot in db.inventory
  {
    FreeRooms(db, slot, db.now)
    + if t.kind.Confirming? && t.kind.id < |db.reservations| then HeldWeight(db.reservations[t.kind.id], slot, db.now) else 0
  }

  /** What the transaction read when it was approved is still there for it, on every night. */
  ghost predicate Secured(db: Db, t: Txn) {
    forall slot | Covers(t.item, slot) :: slot in db.inventory && Reach(db, t, slot) >= t.item.quantity
  }

  ghost predicate TxnOk(db: Db, t: Txn) {
    && t.now <= db.now
    && t.locked <= Max(0, t.item.checkOut - t.item.checkIn)
    && (t.phase != Finished ==>
          && (t.phase == AwaitingReservation ==> t.item == NO_ITEM)
          && (t.mode != Undecided ==> t.kind.Confirming?)
          && (forall slot :: slot in t.seen <==> OwnsNight(t, slot) && slot in db.inventory)
          && (forall slot | slot in t.seen :: slot in db.inventory && t.seen[slot] == db.inventory[slot])
          && (t.kind.Booking? ==> t.item == t.kind.req.item && t.phase != AwaitingReservation && ValidRequest(t.kind.req))
          && (t.kind.Confirming? ==> if t.phase == AwaitingReservation then true else ConfirmOk(db, t))
          && (t.kind.Expiring? ==>
                && t.item == NO_ITEM && t.phase != LockingNights
                && (t.phase != AwaitingReservation ==>
                      t.kind.id < |db.reservations| && Expirable(db.reservations[t.kind.id], t.now)))
          && (Decided(t) && !t.kind.Expiring? ==> AllNightsLocked(t) && Secured(db, t)))
  }

  /** A confirmation that owns its reservation has judged it rightly, and the reservation has not moved since. */
  ghost predicate ConfirmOk(db: Db, t: Txn)
    requires t.kind.Confirming?
  {
    && t.kind.id < |db.reservations|
    && var r := db.reservations[t.kind.id];
    && CanTransition(r.status, Confirmed) && |r.items| > 0 && t.item == r.items[0]
    && (t.mode == FromHolds ==> r.status == PaymentPending)
    && (t.mode != FromHolds ==> t.mode == FromItems && HeldAtZero(r, t.now))
  }

  ghost predicate Exclusive(s: Sys) {
    && (forall i, j, id | 0 <= i < |s.txns| && 0 <= j < |s.txns| && OwnsReservation(s.txns[i], id) && OwnsReservation(s.txns[j], id) :: i == j)
    && (forall i, j, slot | 0 <= i < |s.txns| && 0 <= j < |s.txns| && slot in s.db.inventory
                            && OwnsNight(s.txns[i], slot) && OwnsNight(s.txns[j], slot) :: i == j)
  }

  ghost predicate SysInv(s: Sys) {
    && StayInv(s.db) && NoOversell(s.db)
    && Exclusive(s)
    && forall i | 0 <= i < |s.txns| :: TxnOk(s.db, s.txns[i])
  }

  /**
   * The one thing the code does not check: when an on-time confirmation finally owns its nights, its
   * hold is still live on the real clock, or the rooms happen to be free.
   */
  ghost predicate Timely(s: Sys, m: Move) {
    m.Decide? && m.i < |s.txns| && s.txns[m.i].mode == FromHolds ==>
      var t := s.txns[m.i];
      || (t.kind.Confirming? && t.kind.id < |s.db.reservations| && HoldLive(s.db.reservations[t.kind.id], s.db.now))
      || Fits(s.db, t.item, s.db.now)
  }

  // ---- statements that write nothing

  /** Replacing one transaction by one that owns no more than nobody else owns. */
  lemma ReplaceKeeps(s: Sys, i: nat, t': Txn)
    requires SysInv(s) && i < |s.txns| && TxnOk(s.db, t')
    requires forall slot | slot in s.db.inventory && OwnsNight(t', slot) ::
               OwnsNight(s.txns[i], slot) || forall j | 0 <= j < |s.txns| :: !OwnsNight(s.txns[j], slot)
    requires forall id | OwnsReservation(t', id) ::
               OwnsReservation(s.txns[i], id) || forall j | 0 <= j < |s.txns| :: !OwnsReservation(s.txns[j], id)
    ensures SysInv(s.(txns := s.txns[i := t']))
  {}

  lemma BeginKeeps(s: Sys, t: Txn)
    requires SysInv(s) && TxnOk(s.db, t)
    requires forall slot :: !OwnsNight(t, slot)
    requires forall id :: !OwnsReservation(t, id)
    ensures SysInv(s.(txns := s.txns + [t]))
  {}

  lemma LockReservationKeeps(s: Sys, i: nat)
    requires SysInv(s) && Enabled(s, LockReservation(i))
    ensures SysInv(s.(txns := s.txns[i := Resolve(s.db, s.txns[i])]))
  {
    var t := s.txns[i];
    var t' := Resolve(s.db, t);
    if t'.mode == FromItems && t'.phase == LockingNights {
      NotOnTimeHoldsNothing(s.db.(now := t.now), t.kind.id);
    }
    ReplaceKeeps(s, i, t');
  }

  lemma LockNextOk(db: Db, t: Txn)
    requires TxnOk(db, t) && t.phase == LockingNights && !AllNightsLocked(t)
    ensures TxnOk(db, LockNext(db, t))
    ensures forall other | OwnsNight(LockNext(db, t), other) :: OwnsNight(t, other) || other == NextNight(t)
  {
    var t', slot := LockNext(db, t), NextNight(t);
    forall other ensures OwnsNight(t', other) <==> OwnsNight(t, other) || other == slot {}
  }

  lemma LockNightKeeps(s: Sys, i: nat)
    requires SysInv(s) && Enabled(s, LockNight(i))
    ensures SysInv(s.(txns := s.txns[i := LockNext(s.db, s.txns[i])]))
  {
    LockNextOk(s.db, s.txns[i]);
    ReplaceKeeps(s, i, LockNext(s.db, s.txns[i]));
  }

  /** A check passed with a stale clock and rows read under locks is a lower bound on what is free now. */
  lemma CheckIsLowerBound(db: Db, t: Txn)
    requires StayInv(db) && TxnOk(db, t) && t.phase == LockingNights && CheckPasses(db, t)
    ensures Fits(db, t.item, db.now)
  {
    var nights := EachNight(t.item.checkIn, t.item.checkOut);
    forall slot | Covers(t.item, slot) ensures slot in db.inventory && FreeRooms(db, slot, db.now) >= t.item.quantity {
      assert slot == Slot(t.item.roomType, nights[slot.night - t.item.checkIn]);
      LaterReadingsFreeMore(db, slot, t.now, db.now);
    }
  }

  lemma ReachAtLeastFree(db: Db, t: Txn, slot: Slot)
    requires StayInv(db) && slot in db.inventory
    ensures Reach(db, t, slot) >= FreeRooms(db, slot, db.now)
  {
    DemandsNonNegative(db, slot);
  }

  /** An on-time confirmation is secured exactly when its hold is live on the real clock, or its nights have room. */
  lemma SecuredExactly(db: Db, t: Txn)
    requires StayInv(db) && NoOversell(db) && TxnOk(db, t) && t.phase == LockingNights && t.kind.Confirming?
    ensures Secured(db, t) <==> (HoldLive(db.reservations[t.kind.id], db.now) && t.mode == FromHolds) || Fits(db, t.item, db.now)
  {
    var id := t.kind.id;
    var r := db.reservations[id];
    assert RowOk(db.inventory, db.reservations, id);
    forall slot | Covers(t.item, slot)
      ensures slot in db.inventory
              && Reach(db, t, slot) == FreeRooms(db, slot, db.now)
                 + (if r.status == PaymentPending && HoldLive(r, db.now) then t.item.quantity else 0)
              && FreeRooms(db, slot, db.now) >= 0
    {
      ItemDemand(db, id, slot);
    }
  }

  lemma JudgeOk(db: Db, t: Txn)
    requires StayInv(db) && NoOversell(db) && TxnOk(db, t) && t.phase == LockingNights && AllNightsLocked(t)
    ensures TxnOk(db, Judge(db, t))
            <==> (t.mode == FromHolds ==> HoldLive(db.reservations[t.kind.id], db.now) || Fits(db, t.item, db.now))
  {
    var t' := Judge(db, t);
    if t.mode == FromHolds {
      SecuredExactly(db, t);
      assert Secured(db, t) <==> Secured(db, t');
    } else if CheckPasses(db, t) {
      CheckIsLowerBound(db, t);
      forall slot | Covers(t'.item, slot) ensures slot in db.inventory && Reach(db, t', slot) >= t'.item.quantity {
        ReachAtLeastFree(db, t', slot);
      }
    }
  }

  lemma DecideKeeps(s: Sys, i: nat)
    requires SysInv(s) && Enabled(s, Decide(i))
    ensures SysInv(s.(txns := s.txns[i := Judge(s.db, s.txns[i])])) <==> Timely(s, Decide(i))
  {
    var t' := Judge(s.db, s.txns[i]);
    JudgeOk(s.db, s.txns[i]);
    if TxnOk(s.db, t') {
      ReplaceKeeps(s, i, t');
    } else {
      assert !TxnOk(s.db, s.txns[i := t'][i]);
    }
  }

  // ---- the clock

  /** Rooms held by everybody but one reservation only shrink as time passes. */
  lemma OthersHeldShrink(rs: seq<Reservation>, id: nat, slot: Slot, earlier: Time, later: Time)
    requires earlier <= later && id < |rs|
    requires forall k | 0 <= k < |rs| :: Demand(rs[k].items, slot) >= 0
    ensures HeldBy(rs, slot, later) - HeldWeight(rs[id], slot, later) <= HeldBy(rs, slot, earlier) - HeldWeight(rs[id], slot, earlier)
  {
    var before, after := HeldWeights(rs, slot, earlier), HeldWeights(rs, slot, later);
    SumUpdate(before, id, 0);
    SumUpdate(after, id, 0);
    SumMono(after[id := 0], before[id := 0]);
  }

  lemma ReachGrows(db: Db, db': Db, t: Txn, slot: Slot)
    requires StayInv(db) && slot in db.inventory && db.now <= db'.now && db' == db.(now := db'.now)
    ensures Reach(db', t, slot) >= Reach(db, t, slot)
  {
    LaterReadingsFreeMore(db, slot, db.now, db'.now);
    if t.kind.Confirming? && t.kind.id < |db.reservations| {
      DemandsNonNegative(db, slot);
      OthersHeldShrink(db.reservations, t.kind.id, slot, db.now, db'.now);
      FreeIsCapacityLeft(db, slot, db.now);
      FreeIsCapacityLeft(db', slot, db'.now);
    }
  }

  lemma TickKeeps(s: Sys, elapsed: nat)
    requires SysInv(s)
    ensures SysInv(s.(db := s.db.(now := s.db.now + elapsed)))
  {
    var db' := s.db.(now := s.db.now + elapsed);
    SameStaysKeepCapacity(s.db, db');
    forall i | 0 <= i < |s.txns| ensures TxnOk(db', s.txns[i]) {
      var t := s.txns[i];
      if t.phase != Finished && Decided(t) && !t.kind.Expiring? {
        forall slot | Covers(t.item, slot) ensures slot in db'.inventory && Reach(db', t, slot) >= t.item.quantity {
          ReachGrows(s.db, db', t, slot);
        }
      }
    }
  }

  // ---- commits

  /** What a commit may touch: the nights the transaction has locked, and its own reservation. */
  ghost predicate Footprint(db: Db, db': Db, t: Txn) {
    && db'.now == db.now && db'.inventory.Keys == db.inventory.Keys
    && |db.reservations| <= |db'.reservations|
    && (forall k | 0 <= k < |db.reservations| && !(!t.kind.Booking? && t.kind.id == k) :: db'.reservations[k] == db.reservations[k])
    && (forall slot | slot in db.inventory && !Covers(t.item, slot) ::
          db'.inventory[slot] == db.inventory[slot] && FreeRooms(db', slot, db.now) >= FreeRooms(db, slot, db.now))
  }

  lemma BookingCommits(cfg: Config, db: Db, t: Txn)
    requires StayInv(db) && NoOversell(db) && TxnOk(db, t) && t.phase == Written && t.kind.Booking?
    ensures var db' := Effect(cfg, db, t); StayInv(db') && NoOversell(db') && Footprint(db, db', t)
  {
    var db' := Effect(cfg, db, t);
    var r := NewReservation(cfg, t.kind.req, t.now);
    assert ItemOk(db.inventory, r);
    BookedKeepsStays(db, db', r, t.now + cfg.holdTtlMs);
    forall slot | slot in db.inventory
      ensures FreeRooms(db', slot, db.now) == FreeRooms(db, slot, db.now) - HeldWeight(r, slot, db.now)
              && 0 <= HeldWeight(r, slot, db.now) <= (if Covers(t.item, slot) then t.item.quantity else 0)
    {
      FreeIsCapacityLeft(db, slot, db.now);
      FreeIsCapacityLeft(db', slot, db.now);
      LoadSnoc(db.reservations, r, slot, db.now);
      DemandSingle(t.item, slot);
    }
    forall slot | slot in db'.inventory ensures FreeRooms(db', slot, db.now) >= 0 {
      assert FreeRooms(db, slot, db.now) >= 0;
    }
  }

  lemma ConfirmMoves(cfg: Config, db: Db, t: Txn)
    requires StayInv(db) && t.kind.Confirming? && ConfirmOk(db, t)
    ensures Moved(db, Effect(cfg, db, t), t.kind.id)
    ensures Effect(cfg, db, t).now == db.now && Effect(cfg, db, t).reservations[t.kind.id].status == Confirmed
  {
    if t.mode == FromHolds {
      OnTimeMoves(cfg, db, t);
    } else {
      LateMoves(cfg, db, t);
    }
  }

  lemma OnTimeMoves(cfg: Config, db: Db, t: Txn)
    requires StayInv(db) && t.kind.Confirming? && ConfirmOk(db, t) && t.mode == FromHolds
    ensures Moved(db, Effect(cfg, db, t), t.kind.id)
    ensures Effect(cfg, db, t).now == db.now && Effect(cfg, db, t).reservations[t.kind.id].status == Confirmed
  {
    ConvertMoves(db.(now := t.now), t.kind.id);
  }

  lemma LateMoves(cfg: Config, db: Db, t: Txn)
    requires StayInv(db) && t.kind.Confirming? && ConfirmOk(db, t) && t.mode != FromHolds
    ensures Moved(db, Effect(cfg, db, t), t.kind.id)
    ensures Effect(cfg, db, t).now == db.now && Effect(cfg, db, t).reservations[t.kind.id].status == Confirmed
  {
    SellMoves(db.(now := t.now), t.kind.id);
  }

  /** Committing a confirmation takes its rooms out of what was within its reach, and out of no other night. */
  lemma ConfirmFreeRooms(cfg: Config, db: Db, t: Txn, slot: Slot)
    requires StayInv(db) && t.kind.Confirming? && ConfirmOk(db, t) && slot in db.inventory
    ensures slot in Effect(cfg, db, t).inventory
    ensures FreeRooms(Effect(cfg, db, t), slot, db.now)
            == if Covers(t.item, slot) then Reach(db, t, slot) - t.item.quantity else FreeRooms(db, slot, db.now)
    ensures !Covers(t.item, slot) ==> Effect(cfg, db, t).inventory[slot] == db.inventory[slot]
  {
    var db', id := Effect(cfg, db, t), t.kind.id;
    ConfirmMoves(cfg, db, t);
    ItemDemand(db, id, slot);
    MoveShiftsFreeRooms(db, db', id, db'.reservations[id], slot, db.now);
  }

  lemma ConfirmCommits(cfg: Config, db: Db, t: Txn)
    requires StayInv(db) && NoOversell(db) && t.kind.Confirming? && ConfirmOk(db, t) && Secured(db, t)
    ensures var db' := Effect(cfg, db, t); StayInv(db') && NoOversell(db') && Footprint(db, db', t)
  {
    var db', id := Effect(cfg, db, t), t.kind.id;
    ConfirmMoves(cfg, db, t);
    MoveKeepsStays(db, db', id, db'.reservations[id]);
    forall slot | slot in db.inventory
      ensures FreeRooms(db', slot, db.now) >= 0
              && (!Covers(t.item, slot) ==>
                    db'.inventory[slot] == db.inventory[slot] && FreeRooms(db', slot, db.now) >= FreeRooms(db, slot, db.now))
    {
      ConfirmFreeRooms(cfg, db, t, slot);
      assert FreeRooms(db, slot, db.now) >= 0;
    }
  }

  lemma ExpiryCommits(cfg: Config, db: Db, t: Txn)
    requires StayInv(db) && NoOversell(db) && TxnOk(db, t) && t.phase == Written && t.kind.Expiring?
    ensures var db' := Effect(cfg, db, t); StayInv(db') && NoOversell(db') && Footprint(db, db', t)
  {
    var db', id := Effect(cfg, db, t), t.kind.id;
    ExpiryMoves(cfg, db, t);
    MoveKeepsStays(db, db', id, db'.reservations[id]);
    forall slot | slot in db.inventory ensures FreeRooms(db', slot, db.now) >= FreeRooms(db, slot, db.now) >= 0 {
      ExpiryFreesRooms(db, db', id, slot);
    }
  }

  lemma ExpiryFreesRooms(db: Db, db': Db, id: nat, slot: Slot)
    requires StayInv(db) && NoOversell(db) && Moved(db, db', id) && db'.reservations[id].status == Expired && slot in db.inventory
    ensures FreeRooms(db', slot, db.now) >= FreeRooms(db, slot, db.now) >= 0
  {
    ItemDemand(db, id, slot);
    MoveShiftsFreeRooms(db, db', id, db'.reservations[id], slot, db.now);
  }

  /** Expiry rewrites its own booking, which weighs nothing any more, and no counter. */
  lemma ExpiryMoves(cfg: Config, db: Db, t: Txn)
    requires StayInv(db) && TxnOk(db, t) && t.phase == Written && t.kind.Expiring?
    ensures var db', id := Effect(cfg, db, t), t.kind.id;
            && Moved(db, db', id) && db'.now == db.now && db'.inventory == db.inventory
            && db'.reservations[id].status == Expired
  {
    ExpireStays(db.(now := t.now), t.kind.id);
  }

  /** A commit inside its footprint leaves every other transaction's reading and rooms as they were. */
  lemma BystanderKept(s: Sys, db': Db, i: nat, j: nat)
    requires SysInv(s) && i < |s.txns| && j < |s.txns| && i != j
    requires s.txns[i].phase == Written && Footprint(s.db, db', s.txns[i])
    ensures TxnOk(db', s.txns[j])
  {
    var u := s.txns[j];
    if u.phase != Finished {
      BystanderBooking(s, db', i, j);
      forall slot | OwnsNight(u, slot) && slot in s.db.inventory
        ensures db'.inventory[slot] == s.db.inventory[slot] && FreeRooms(db', slot, s.db.now) >= FreeRooms(s.db, slot, s.db.now)
      {
        BystanderNight(s, db', i, j, slot);
      }
      if Decided(u) && !u.kind.Expiring? {
        BystanderSecured(s, db', i, j);
      }
    }
  }

  lemma BystanderBooking(s: Sys, db': Db, i: nat, j: nat)
    requires SysInv(s) && i < |s.txns| && j < |s.txns| && i != j
    requires s.txns[i].phase == Written && Footprint(s.db, db', s.txns[i])
    requires s.txns[j].phase != Finished
    ensures var u := s.txns[j];
            !u.kind.Booking? && u.phase != AwaitingReservation ==>
              u.kind.id < |s.db.reservations| <= |db'.reservations| && db'.reservations[u.kind.id] == s.db.reservations[u.kind.id]
  {
    var t, u := s.txns[i], s.txns[j];
    if !u.kind.Booking? && u.phase != AwaitingReservation {
      assert OwnsReservation(u, u.kind.id);
      assert !OwnsReservation(t, u.kind.id);
    }
  }

  lemma BystanderNight(s: Sys, db': Db, i: nat, j: nat, slot: Slot)
    requires Exclusive(s) && i < |s.txns| && j < |s.txns| && i != j
    requires s.txns[i].phase == Written && TxnOk(s.db, s.txns[i]) && Footprint(s.db, db', s.txns[i])
    requires OwnsNight(s.txns[j], slot) && slot in s.db.inventory
    ensures slot in db'.inventory
    ensures db'.inventory[slot] == s.db.inventory[slot] && FreeRooms(db', slot, s.db.now) >= FreeRooms(s.db, slot, s.db.now)
  {
    assert !OwnsNight(s.txns[i], slot);
    WrittenOwnsItsNights(s.db, s.txns[i], slot);
  }

  lemma WrittenOwnsItsNights(db: Db, t: Txn, slot: Slot)
    requires TxnOk(db, t) && t.phase == Written
    ensures Covers(t.item, slot) <==> OwnsNight(t, slot)
  {}

  lemma BystanderSecured(s: Sys, db': Db, i: nat, j: nat)
    requires SysInv(s) && i < |s.txns| && j < |s.txns| && i != j
    requires s.txns[i].phase == Written && Footprint(s.db, db', s.txns[i])
    requires Decided(s.txns[j]) && !s.txns[j].kind.Expiring?
    ensures Secured(db', s.txns[j])
  {
    var u := s.txns[j];
    assert TxnOk(s.db, u);
    BystanderBooking(s, db', i, j);
    forall slot | Covers(u.item, slot) ensures slot in db'.inventory && Reach(db', u, slot) >= u.item.quantity {
      assert OwnsNight(u, slot);
      BystanderNight(s, db', i, j, slot);
    }
  }

  lemma EffectKeeps(cfg: Config, db: Db, t: Txn)
    requires StayInv(db) && NoOversell(db) && TxnOk(db, t) && t.phase == Written
    ensures var db' := Effect(cfg, db, t); StayInv(db') && NoOversell(db') && Footprint(db, db', t)
  {
    match t.kind
    case Booking(_) => BookingCommits(cfg, db, t);
    case Confirming(_) => ConfirmCommits(cfg, db, t);
    case Expiring(_) => ExpiryCommits(cfg, db, t);
  }

  lemma CommitKeeps(cfg: Config, s: Sys, i: nat)
    requires SysInv(s) && Enabled(s, CommitTxn(i))
    ensures SysInv(Next(cfg, s, CommitTxn(i)))
  {
    EffectKeeps(cfg, s.db, s.txns[i]);
    CommittedInv(s, Effect(cfg, s.db, s.txns[i]), i);
  }

  lemma CommittedInv(s: Sys, db': Db, i: nat)
    requires SysInv(s) && i < |s.txns| && s.txns[i].phase == Written
    requires StayInv(db') && NoOversell(db') && Footprint(s.db, db', s.txns[i])
    ensures SysInv(Sys(db', s.txns[i := s.txns[i].(phase := Finished)]))
  {
    var txns' := s.txns[i := s.txns[i].(phase := Finished)];
    FinishingIsExclusive(s, db', i);
    forall j | 0 <= j < |txns'| ensures TxnOk(db', txns'[j]) {
      if j != i {
        BystanderKept(s, db', i, j);
      }
    }
  }

  lemma FinishingIsExclusive(s: Sys, db': Db, i: nat)
    requires Exclusive(s) && i < |s.txns| && db'.inventory.Keys == s.db.inventory.Keys
    ensures Exclusive(Sys(db', s.txns[i := s.txns[i].(phase := Finished)]))
  {
    var t', txns' := s.txns[i].(phase := Finished), s.txns[i := s.txns[i].(phase := Finished)];
    assert forall id :: !OwnsReservation(t', id);
    assert forall slot :: !OwnsNight(t', slot);
  }

  // ---- every interleaving

  lemma BeginsKeep(cfg: Config, s: Sys, m: Move)
    requires SysInv(s) && Enabled(s, m) && (m.BeginBooking? || m.BeginConfirm? || m.BeginExpiry?)
    ensures SysInv(Next(cfg, s, m))
  {
    match m
    case BeginBooking(req) => BeginKeeps(s, Txn(Booking(req), s.db.now, req.item, Undecided, LockingNights, 0, map[]));
    case BeginConfirm(id) => BeginKeeps(s, Txn(Confirming(id), s.db.now, NO_ITEM, Undecided, AwaitingReservation, 0, map[]));
    case BeginExpiry(id) => BeginKeeps(s, Txn(Expiring(id), s.db.now, NO_ITEM, Undecided, AwaitingReservation, 0, map[]));
  }

  lemma PhasesKeep(cfg: Config, s: Sys, i: nat)
    requires SysInv(s)
    ensures Enabled(s, Write(i)) ==> SysInv(Next(cfg, s, Write(i)))
    ensures Enabled(s, Abort(i)) ==> SysInv(Next(cfg, s, Abort(i)))
  {
    if i < |s.txns| {
      ReplaceKeeps(s, i, s.txns[i].(phase := Finished));
      if s.txns[i].phase == Approved {
        ReplaceKeeps(s, i, s.txns[i].(phase := Written));
      }
    }
  }

  lemma LocksKeep(cfg: Config, s: Sys, i: nat)
    requires SysInv(s)
    ensures Enabled(s, LockReservation(i)) ==> SysInv(Next(cfg, s, LockReservation(i)))
    ensures Enabled(s, LockNight(i)) ==> SysInv(Next(cfg, s, LockNight(i)))
  {
    if Enabled(s, LockReservation(i)) {
      LockReservationKeeps(s, i);
    }
    if Enabled(s, LockNight(i)) {
      LockNightKeeps(s, i);
    }
  }

  /** Statements other than the final judgement keep the invariant unconditionally. */
  lemma SafeMoveKeepsSys(cfg: Config, s: Sys, m: Move)
    requires SysInv(s) && Enabled(s, m) && !m.Decide?
    ensures SysInv(Next(cfg, s, m))
  {
    match m
    case LockReservation(i) => LocksKeep(cfg, s, i);
    case LockNight(i) => LocksKeep(cfg, s, i);
    case Write(i) => PhasesKeep(cfg, s, i);
    case CommitTxn(i) => CommitKeeps(cfg, s, i);
    case Abort(i) => PhasesKeep(cfg, s, i);
    case Tick(elapsed) => TickKeeps(s, elapsed);
    case _ => BeginsKeep(cfg, s, m);
  }

  /** One statement keeps the whole invariant, exactly when it is not an untimely on-time approval. */
  lemma MoveKeepsSys(cfg: Config, s: Sys, m: Move)
    requires SysInv(s) && Enabled(s, m)
    ensures SysInv(Next(cfg, s, m)) <==> Timely(s, m)
  {
    if m.Decide? {
      DecideKeeps(s, m.i);
    } else {
      SafeMoveKeepsSys(cfg, s, m);
    }
  }

  /** The state after some prefix of statements is `s`; None when a statement was not enabled. */
  ghost function Play(cfg: Config, db: Db, moves: seq<Move>): Option<Sys> {
    if |moves| == 0 then Some(Sys(db, []))
    else
      var before := Play(cfg, db, moves[..|moves| - 1]);
      if before.Some? && Enabled(before.value, moves[|moves| - 1])
      then Some(Next(cfg, before.value, moves[|moves| - 1])) else None
  }

  lemma PlaySnoc(cfg: Config, db: Db, moves: seq<Move>, m: Move)
    requires Play(cfg, db, moves).Some? && Enabled(Play(cfg, db, moves).value, m)
    ensures Play(cfg, db, moves + [m]) == Some(Next(cfg, Play(cfg, db, moves).value, m))
  {
    assert (moves + [m])[..|moves|] == moves;
  }

  ghost predicate TimelyPlay(cfg: Config, db: Db, moves: seq<Move>) {
    |moves| == 0
    || (TimelyPlay(cfg, db, moves[..|moves| - 1])
        && var before := Play(cfg, db, moves[..|moves| - 1]);
           before.Some? ==> Timely(before.value, moves[|moves| - 1]))
  }

  /**
   * Statement-level no-oversell: however many bookings, confirmations and expiries interleave, with
   * clocks read before any lock, every committed state keeps every night within its rooms.
   */
  lemma {:induction false} InterleavingsNeverOversell(cfg: Config, db: Db, moves: seq<Move>)
    requires StayInv(db) && NoOversell(db)
    requires TimelyPlay(cfg, db, moves) && Play(cfg, db, moves).Some?
    ensures var s := Play(cfg, db, moves).value; SysInv(s) && StayInv(s.db) && NoOversell(s.db)
  {
    if |moves| > 0 {
      InterleavingsNeverOversell(cfg, db, moves[..|moves| - 1]);
      MoveKeepsSys(cfg, Play(cfg, db, moves[..|moves| - 1]).value, moves[|moves| - 1]);
    }
  }

  /** An untimely on-time approval oversells as soon as it is written and committed. */
  lemma UntimelyConfirmationOversells(cfg: Config, s: Sys, i: nat)
    requires SysInv(s) && Enabled(s, Decide(i)) && !Timely(s, Decide(i))
    ensures var decided := Next(cfg, s, Decide(i));
            && Enabled(decided, Write(i))
            && Enabled(Next(cfg, decided, Write(i)), CommitTxn(i))
            && !NoOversell(Next(cfg, Next(cfg, decided, Write(i)), CommitTxn(i)).db)
  {
    var t := s.txns[i];
    var w := Judge(s.db, t).(phase := Written);
    var slot :| Covers(t.item, slot) && !(slot in s.db.inventory && FreeRooms(s.db, slot, s.db.now) >= t.item.quantity);
    UntimelyEffect(cfg, s.db, w, slot);
  }

  lemma UntimelyEffect(cfg: Config, db: Db, t: Txn, slot: Slot)
    requires StayInv(db) && t.kind.Confirming? && ConfirmOk(db, t) && t.mode == FromHolds
    requires !HoldLive(db.reservations[t.kind.id], db.now)
    requires Covers(t.item, slot) && !(slot in db.inventory && FreeRooms(db, slot, db.now) >= t.item.quantity)
    ensures !NoOversell(Effect(cfg, db, t))
  {
    assert RowOk(db.inventory, db.reservations, t.kind.id);
    ConfirmMoves(cfg, db, t);
    ConfirmFreeRooms(cfg, db, t, slot);
  }

  // ---- statements of one transaction at one instant

  /** With the clock where the transaction read it, its check under locks is the check of the one-step transaction. */
  lemma CheckAtOnce(db: Db, t: Txn)
    requires TxnOk(db, t) && t.phase == LockingNights && AllNightsLocked(t) && t.now == db.now
    ensures CheckPasses(db, t)
            <==> CheckAvailability(db, t.item.roomType, EachNight(t.item.checkIn, t.item.checkOut), t.item.quantity, db.now).Available?
  {
    var nights := EachNight(t.item.checkIn, t.item.checkOut);
    CheckAvailabilityExact(db, t.item.roomType, nights, t.item.quantity, db.now);
    forall k | 0 <= k < |nights|
      ensures var slot := Slot(t.item.roomType, nights[k]);
              (slot in t.seen <==> slot in db.inventory) && (slot in t.seen ==> t.seen[slot] == db.inventory[slot])
    {
      assert OwnsNight(t, Slot(t.item.roomType, nights[k]));
    }
  }

  lemma BookingJudgedAtOnce(cfg: Config, db: Db, t: Txn)
    requires TxnOk(db, t) && t.phase == LockingNights && AllNightsLocked(t) && t.now == db.now && t.kind.Booking? && t.mode == Undecided
    requires t.kind.req.coinsRedeemed == 0 && t.kind.req.user in db.balances
    ensures Judge(db, t).phase == Approved <==> CreateBooking(cfg, db, t.kind.req).Committed?
  {
    CheckAtOnce(db, t);
  }

  lemma BookingCommittedAtOnce(cfg: Config, db: Db, t: Txn)
    requires t.kind.Booking? && t.now == db.now && t.kind.req.coinsRedeemed == 0 && CreateBooking(cfg, db, t.kind.req).Committed?
    ensures Effect(cfg, db, t) == CreateBooking(cfg, db, t.kind.req).db
  {}

  /** A booking that pays no coins is approved exactly when the one-step transaction commits, and commits the same rows. */
  lemma BookingAtOnce(cfg: Config, s: Sys, i: nat)
    requires SysInv(s) && Enabled(s, Decide(i)) && s.txns[i].kind.Booking? && s.txns[i].now == s.db.now
    requires s.txns[i].kind.req.coinsRedeemed == 0 && s.txns[i].kind.req.user in s.db.balances
    ensures var tx, decided := CreateBooking(cfg, s.db, s.txns[i].kind.req), Next(cfg, s, Decide(i)).txns[i];
            && (decided.phase == Approved <==> tx.Committed?)
            && (tx.Committed? ==> Effect(cfg, s.db, decided) == tx.db)
  {
    assert TxnOk(s.db, s.txns[i]);
    BookingJudgedAtOnce(cfg, s.db, s.txns[i]);
    if CreateBooking(cfg, s.db, s.txns[i].kind.req).Committed? {
      BookingCommittedAtOnce(cfg, s.db, Next(cfg, s, Decide(i)).txns[i]);
    }
  }

  lemma ConfirmationJudgedAtOnce(db: Db, t: Txn)
    requires StayInv(db) && TxnOk(db, t) && t.phase == LockingNights && AllNightsLocked(t) && t.now == db.now && t.kind.Confirming?
    requires t.mode == FromHolds ==> HoldLive(db.reservations[t.kind.id], db.now)
    ensures OnTime(db, t.kind.id) <==> t.mode == FromHolds
    ensures Judge(db, t).phase == Approved <==> OnTime(db, t.kind.id) || ItemsAvailable(db, db.reservations[t.kind.id].items)
  {
    CheckAtOnce(db, t);
    assert RowOk(db.inventory, db.reservations, t.kind.id) && HoldRowsMatch(db.reservations, db.holds, t.kind.id);
    assert db.reservations[t.kind.id].items == [t.item];
  }

  lemma ConfirmationCommittedAtOnce(cfg: Config, db: Db, t: Txn, p: nat)
    requires t.kind.Confirming? && ConfirmOk(db, t) && t.now == db.now && p < |db.payments| && db.payments[p].status != Failed
    requires OnTime(db, t.kind.id) <==> t.mode == FromHolds
    ensures var (db', answer) := ApplySuccess(db, t.kind.id, p);
            && (answer == Accepted(Confirmed, Captured) <==> OnTime(db, t.kind.id) || ItemsAvailable(db, db.reservations[t.kind.id].items))
            && (answer == Accepted(Confirmed, Captured) ==> Effect(cfg, db, t) == db'.(payments := db.payments))
  {
    assert db.(now := t.now) == db;
  }

  /** A confirmation is approved exactly when the one-step transaction accepts the payment, and commits the same rows but the payment's. */
  lemma ConfirmationAtOnce(cfg: Config, s: Sys, i: nat, p: nat)
    requires SysInv(s) && Enabled(s, Decide(i)) && s.txns[i].kind.Confirming? && s.txns[i].now == s.db.now
    requires p < |s.db.payments| && s.db.payments[p].status != Failed
    requires s.txns[i].mode == FromHolds ==> HoldLive(s.db.reservations[s.txns[i].kind.id], s.db.now)
    ensures var (db', answer) := ApplySuccess(s.db, s.txns[i].kind.id, p);
            var decided := Next(cfg, s, Decide(i)).txns[i];
            && (decided.phase == Approved <==> answer == Accepted(Confirmed, Captured))
            && (decided.phase == Approved ==> Effect(cfg, s.db, decided) == db'.(payments := s.db.payments))
  {
    var decided := Next(cfg, s, Decide(i)).txns[i];
    assert TxnOk(s.db, s.txns[i]);
    ConfirmationJudgedAtOnce(s.db, s.txns[i]);
    ConfirmationCommittedAtOnce(cfg, s.db, decided, p);
  }

  /** A confirmation that gets its reservation goes on exactly when that can be paid for, and sells its own holds exactly when they last. */
  lemma ConfirmationChoosesItsRooms(cfg: Config, s: Sys, i: nat)
    requires Enabled(s, LockReservation(i)) && s.txns[i].kind.Confirming?
    ensures var t, locked := s.txns[i], Next(cfg, s, LockReservation(i)).txns[i];
            var r := s.db.reservations[t.kind.id];
            && (locked.phase == (if (r.status == PaymentPending || r.status == Expired) && r.items != [] then LockingNights else Finished))
            && (locked.phase == LockingNights ==>
                  && locked.item == r.items[0] && locked.now == t.now
                  && locked.mode == if r.status == PaymentPending && r.holdExpiresAt.Some? && r.holdExpiresAt.value > t.now
                                       && HoldsOf(s.db.holds, t.kind.id) != []
                                    then FromHolds else FromItems)
  {}

  /** An expiry that gets its reservation goes on exactly when the one-step transaction expires it, and commits the same rows. */
  lemma ExpiryAtOnce(cfg: Config, s: Sys, i: nat)
    requires Enabled(s, LockReservation(i)) && s.txns[i].kind.Expiring?
    ensures var (db', expired) := ExpireReservation(s.db, s.txns[i].kind.id);
            var locked := Next(cfg, s, LockReservation(i)).txns[i];
            && (locked.phase == Approved <==> expired)
            && (expired ==> Effect(cfg, s.db, locked) == db')
  {
    assert s.db.(now := s.db.now) == s.db;
  }
}
