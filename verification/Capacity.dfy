/** No night is ever oversold, and exactly when a hold revived after it lapsed would oversell one. */
module Capacity {
  import opened Basics
  import opened Lifecycle
  import opened Tables
  import opened Inventory
  import opened Transactions
  import opened Invariants
  import opened StayProofs
  import opened StaySteps

  lemma ItemDemand(db: Db, id: nat, slot: Slot)
    requires StayInv(db) && id < |db.reservations|
    ensures |db.reservations[id].items| == 1
    ensures Demand(db.reservations[id].items, slot)
            == if Covers(db.reservations[id].items[0], slot) then db.reservations[id].items[0].quantity else 0
    ensures Demand(db.reservations[id].items, slot) >= 0
  {
    assert RowOk(db.inventory, db.reservations, id);
    DemandSingle(db.reservations[id].items[0], slot);
    assert db.reservations[id].items == [db.reservations[id].items[0]];
  }

  /** Held rooms only fall as a clock reading moves on: a stale reading over-counts them. */
  lemma LaterReadingsFreeMore(db: Db, slot: Slot, earlier: Time, later: Time)
    requires StayInv(db) && slot in db.inventory && earlier <= later
    ensures FreeRooms(db, slot, earlier) <= FreeRooms(db, slot, later)
  {
    FreeIsCapacityLeft(db, slot, earlier);
    FreeIsCapacityLeft(db, slot, later);
    DemandsNonNegative(db, slot);
    SumMono(HeldWeights(db.reservations, slot, later), HeldWeights(db.reservations, slot, earlier));
  }

  /** A move that weighs no more than before, at the present instant, cannot oversell. */
  lemma LighterMoveKeepsCapacity(db: Db, db': Db, id: nat)
    requires StayInv(db) && Moved(db, db', id) && NoOversell(db) && db'.now == db.now
    requires forall slot | slot in db.inventory ::
               Weight(db'.reservations[id], slot, db.now) <= Weight(db.reservations[id], slot, db.now)
    ensures NoOversell(db')
  {
    forall slot | slot in db'.inventory ensures FreeRooms(db', slot, db.now) >= 0 {
      assert slot in db.inventory;
      MoveShiftsFreeRooms(db, db', id, db'.reservations[id], slot, db.now);
    }
  }

  /** Taking on the item of a reservation that holds nothing oversells exactly when some night lacks the rooms. */
  lemma FreshWeightNeedsRooms(db: Db, db': Db, id: nat)
    requires StayInv(db) && Moved(db, db', id) && NoOversell(db) && db'.now == db.now
    requires forall slot | slot in db.inventory ::
               && Weight(db.reservations[id], slot, db.now) == 0
               && Weight(db'.reservations[id], slot, db.now) == Demand(db.reservations[id].items, slot)
    ensures |db.reservations[id].items| == 1
    ensures NoOversell(db') <==> Fits(db, db.reservations[id].items[0], db.now)
  {
    ItemDemand(db, id, Slot(0, 0));
    var item := db.reservations[id].items[0];
    assert RowOk(db.inventory, db.reservations, id);
    forall slot | slot in db.inventory
      ensures FreeRooms(db', slot, db.now) == FreeRooms(db, slot, db.now) - if Covers(item, slot) then item.quantity else 0
    {
      MoveShiftsFreeRooms(db, db', id, db'.reservations[id], slot, db.now);
      ItemDemand(db, id, slot);
    }
    if NoOversell(db') {
      forall slot | Covers(item, slot) ensures slot in db.inventory && FreeRooms(db, slot, db.now) >= item.quantity {
        assert slot in db'.inventory;
        assert FreeRooms(db', slot, db.now) >= 0;
      }
    }
  }

  // ---- bookings

  lemma CreateKeepsCapacity(cfg: Config, db: Db, req: BookingRequest)
    requires StayInv(db) && NoOversell(db) && CreateBooking(cfg, db, req).Committed?
    ensures NoOversell(CreateBooking(cfg, db, req).db)
  {
    var db' := CreateBooking(cfg, db, req).db;
    var r := NewReservation(cfg, req, db.now);
    CreateBooks(cfg, db, req);
    CreateKeepsStays(cfg, db, req);
    forall slot | slot in db'.inventory ensures FreeRooms(db', slot, db'.now) >= 0 {
      FreeIsCapacityLeft(db, slot, db.now);
      FreeIsCapacityLeft(db', slot, db.now);
      LoadSnoc(db.reservations, r, slot, db.now);
      DemandSingle(req.item, slot);
      assert FreeRooms(db, slot, db.now) >= 0;
    }
  }

  // ---- confirmations

  /** Turning live holds into sold rooms leaves the free rooms of every night exactly as they were. */
  lemma ConversionKeepsFreeRooms(db: Db, id: nat, slot: Slot)
    requires StayInv(db) && id < |db.reservations| && OnTime(db, id) && slot in db.inventory
    ensures FreeRooms(Confirm(ConvertHoldsToSold(db, id), id), slot, db.now) == FreeRooms(db, slot, db.now)
  {
    var db' := Confirm(ConvertHoldsToSold(db, id), id);
    ConvertMoves(db, id);
    MoveShiftsFreeRooms(db, db', id, db'.reservations[id], slot, db.now);
  }

  /** A confirmation keeps capacity on the on-time path, and on the late path after its own check. */
  lemma ConfirmationKeepsCapacity(db: Db, db': Db, id: nat)
    requires StayInv(db) && NoOversell(db) && Moved(db, db', id) && db'.now == db.now
    requires db'.reservations[id].status == Confirmed
    requires OnTime(db, id) || (HeldAtZero(db.reservations[id], db.now) && ItemsAvailable(db, db.reservations[id].items))
    requires !Selling(db.reservations[id].status)
    ensures NoOversell(db')
  {
    if OnTime(db, id) {
      LighterMoveKeepsCapacity(db, db', id);
    } else {
      ItemDemand(db, id, Slot(0, 0));
      AvailableIsFits(db, db.reservations[id].items[0], db.now);
      FreshWeightNeedsRooms(db, db', id);
    }
  }

  lemma NotifyKeepsClock(db: Db, n: Notification)
    ensures ProcessNotification(db, n).0.now == db.now
    ensures !SameStays(db, ProcessNotification(db, n).0) ==>
              n.reservation < |db.reservations| && !Selling(db.reservations[n.reservation].status)
  {}

  lemma NotifyKeepsCapacity(db: Db, n: Notification)
    requires StayInv(db) && NoOversell(db)
    ensures NoOversell(ProcessNotification(db, n).0)
  {
    var db' := ProcessNotification(db, n).0;
    NotifyStays(db, n);
    NotifyKeepsClock(db, n);
    if SameStays(db, db') {
      SameStaysKeepCapacity(db, db');
    } else {
      ConfirmationKeepsCapacity(db, db', n.reservation);
    }
  }

  // ---- the late path's check, item by item

  /** No night is asked for by two items. */
  ghost predicate DisjointItems(items: seq<Item>) {
    forall i, j, slot | 0 <= i < j < |items| && Covers(items[i], slot) :: !Covers(items[j], slot)
  }

  lemma {:induction false} NoDemand(items: seq<Item>, slot: Slot)
    requires forall i | 0 <= i < |items| :: !Covers(items[i], slot)
    ensures Demand(items, slot) == 0
  {
    if |items| > 0 {
      NoDemand(items[..|items| - 1], slot);
    }
  }

  lemma {:induction false} DemandOfDisjoint(items: seq<Item>, i: nat, slot: Slot)
    requires DisjointItems(items) && i < |items| && Covers(items[i], slot)
    ensures Demand(items, slot) == items[i].quantity
  {
    var n := |items| - 1;
    if i == n {
      NoDemand(items[..n], slot);
    } else {
      DemandOfDisjoint(items[..n], i, slot);
    }
  }

  /** Every night of the item has room for all the items together. */
  ghost predicate FitsAll(db: Db, items: seq<Item>, item: Item) {
    forall slot | Covers(item, slot) :: slot in db.inventory && FreeRooms(db, slot, db.now) >= Demand(items, slot)
  }

  lemma FitsAloneFitsAll(db: Db, items: seq<Item>, i: nat)
    requires DisjointItems(items) && i < |items|
    ensures CheckAvailability(db, items[i].roomType, EachNight(items[i].checkIn, items[i].checkOut), items[i].quantity, db.now).Available?
            <==> FitsAll(db, items, items[i])
  {
    AvailableIsFits(db, items[i], db.now);
    forall slot | Covers(items[i], slot) ensures Demand(items, slot) == items[i].quantity {
      DemandOfDisjoint(items, i, slot);
    }
  }

  /** Checking each item alone is as good as checking the whole booking when no two items share a night. */
  lemma LateCheckIsExact(db: Db, items: seq<Item>)
    requires DisjointItems(items)
    ensures ItemsAvailable(db, items) <==> forall i | 0 <= i < |items| :: FitsAll(db, items, items[i])
  {
    forall i | 0 <= i < |items|
      ensures CheckAvailability(db, items[i].roomType, EachNight(items[i].checkIn, items[i].checkOut), items[i].quantity, db.now).Available?
              <==> FitsAll(db, items, items[i])
    {
      FitsAloneFitsAll(db, items, i);
    }
  }

  function NightsOf(items: seq<Item>): set<Slot> {
    if |items| == 0 then {}
    else
      var last := items[|items| - 1];
      NightsOf(items[..|items| - 1]) + set n | last.checkIn <= n < last.checkOut :: Slot(last.roomType, n)
  }

  lemma {:induction false} NightsOfCovers(items: seq<Item>, i: nat, slot: Slot)
    requires i < |items| && Covers(items[i], slot)
    ensures slot in NightsOf(items)
  {
    if i < |items| - 1 {
      NightsOfCovers(items[..|items| - 1], i, slot);
    }
  }

  /** The most rooms a single item asks for on a night. */
  function LargestOn(items: seq<Item>, slot: Slot): int {
    if |items| == 0 then 0
    else Max(LargestOn(items[..|items| - 1], slot), if Covers(items[|items| - 1], slot) then items[|items| - 1].quantity else 0)
  }

  lemma {:induction false} LargestOnBounds(items: seq<Item>, i: nat, slot: Slot)
    requires i < |items| && Covers(items[i], slot)
    ensures items[i].quantity <= LargestOn(items, slot)
  {
    if i < |items| - 1 {
      LargestOnBounds(items[..|items| - 1], i, slot);
    }
  }

  ghost predicate PositiveItems(items: seq<Item>) {
    forall i | 0 <= i < |items| :: items[i].quantity >= 1
  }

  lemma {:induction false} DemandAtLeastLargest(items: seq<Item>, slot: Slot)
    requires PositiveItems(items)
    ensures 0 <= LargestOn(items, slot) <= Demand(items, slot)
  {
    if |items| > 0 {
      DemandAtLeastLargest(items[..|items| - 1], slot);
    }
  }

  lemma {:induction false} SharedDemandAboveLargest(items: seq<Item>, i: nat, j: nat, slot: Slot)
    requires PositiveItems(items) && i < j < |items| && Covers(items[i], slot) && Covers(items[j], slot)
    ensures LargestOn(items, slot) < Demand(items, slot)
  {
    var front := items[..|items| - 1];
    DemandAtLeastLargest(front, slot);
    if j < |items| - 1 {
      SharedDemandAboveLargest(front, i, j, slot);
    } else {
      LargestOnBounds(front, i, slot);
    }
  }

  /** A hotel with just the rooms the largest item of each night needs. */
  function TightHotel(items: seq<Item>): Db {
    Db(0, map slot | slot in NightsOf(items) :: InventoryRow(LargestOn(items, slot), 0, 0), [], [], [], [], map[], [], [])
  }

  lemma TightHotelPassesTheCheck(items: seq<Item>)
    ensures ItemsAvailable(TightHotel(items), items)
  {
    var db := TightHotel(items);
    forall i | 0 <= i < |items|
      ensures CheckAvailability(db, items[i].roomType, EachNight(items[i].checkIn, items[i].checkOut), items[i].quantity, db.now).Available?
    {
      forall slot | Covers(items[i], slot) ensures slot in db.inventory && FreeRooms(db, slot, db.now) >= items[i].quantity {
        NightsOfCovers(items, i, slot);
        LargestOnBounds(items, i, slot);
      }
      AvailableIsFits(db, items[i], db.now);
    }
  }

  /** The late path's check is good on all tables exactly for bookings none of whose items share a night. */
  lemma LateCheckSufficesExactly(items: seq<Item>)
    requires PositiveItems(items)
    ensures (forall db: Db :: ItemsAvailable(db, items) ==> forall i | 0 <= i < |items| :: FitsAll(db, items, items[i]))
            <==> DisjointItems(items)
  {
    if DisjointItems(items) {
      forall db: Db | ItemsAvailable(db, items) ensures forall i | 0 <= i < |items| :: FitsAll(db, items, items[i]) {
        LateCheckIsExact(db, items);
      }
    } else {
      var i, j, slot :| 0 <= i < j < |items| && Covers(items[i], slot) && Covers(items[j], slot);
      TightHotelPassesTheCheck(items);
      SharedDemandAboveLargest(items, i, j, slot);
      assert !FitsAll(TightHotel(items), items, items[i]);
    }
  }

  // ---- hold extension and admin acceptance, which look at no clock and no rooms

  lemma RevivedOrLive(db: Db, db': Db, id: nat)
    requires StayInv(db) && Moved(db, db', id) && NoOversell(db) && db'.now == db.now
    requires db.reservations[id].status == PaymentPending
    requires db'.reservations[id].status == Confirmed
             || (db'.reservations[id].status == PaymentPending && HoldLive(db'.reservations[id], db.now))
    ensures |db.reservations[id].items| == 1
    ensures NoOversell(db') <==> (HoldLive(db.reservations[id], db.now) || Fits(db, db.reservations[id].items[0], db.now))
  {
    ItemDemand(db, id, Slot(0, 0));
    if HoldLive(db.reservations[id], db.now) {
      LighterMoveKeepsCapacity(db, db', id);
    } else {
      FreshWeightNeedsRooms(db, db', id);
    }
  }

  /** Extending a hold is safe exactly when the hold is still live, or its rooms happen to be free again. */
  lemma ExtendOversellsExactly(db: Db, user: UserId, id: nat)
    requires StayInv(db) && NoOversell(db) && ExtensionApplies(db, user, id)
    ensures |db.reservations[id].items| == 1
    ensures NoOversell(TryExtendHold(db, user, id).db)
            <==> (HoldLive(db.reservations[id], db.now) || Fits(db, db.reservations[id].items[0], db.now))
  {
    ExtendMoves(db, user, id);
    RevivedOrLive(db, TryExtendHold(db, user, id).db, id);
  }

  /** Accepting a pending booking is safe exactly when its hold is still live, or its rooms are free again. */
  lemma AcceptOversellsExactly(db: Db, id: nat)
    requires StayInv(db) && NoOversell(db)
    requires id < |db.reservations| && db.reservations[id].status == PaymentPending
    ensures |db.reservations[id].items| == 1
    ensures NoOversell(AdminAccept(db, id).db)
            <==> (HoldLive(db.reservations[id], db.now) || Fits(db, db.reservations[id].items[0], db.now))
  {
    ConvertMoves(db, id);
    RevivedOrLive(db, AdminAccept(db, id).db, id);
  }

  /** What a caller of the two unguarded steps has to check first; every other step is safe as it stands. */
  ghost predicate Guarded(db: Db, step: Step) {
    match step
    case Extend(user, id) =>
      ExtensionApplies(db, user, id) && |db.reservations[id].items| == 1 ==>
        HoldLive(db.reservations[id], db.now) || Fits(db, db.reservations[id].items[0], db.now)
    case Accept(id) =>
      id < |db.reservations| && db.reservations[id].status == PaymentPending && |db.reservations[id].items| == 1 ==>
        HoldLive(db.reservations[id], db.now) || Fits(db, db.reservations[id].items[0], db.now)
    case _ => true
  }

  lemma SameStaysKeepCapacity(db: Db, db': Db)
    requires StayInv(db) && NoOversell(db) && SameStays(db, db') && db'.now >= db.now
    ensures NoOversell(db')
  {
    forall slot | slot in db'.inventory ensures FreeRooms(db', slot, db'.now) >= 0 {
      LaterReadingsFreeMore(db, slot, db.now, db'.now);
      assert FreeRooms(db, slot, db.now) >= 0;
    }
  }

  /** The remaining steps give rooms back or leave them. */
  predicate Releasing(step: Step) {
    step.Expire? || step.Complete? || step.CreditEarn? || step.Cancel? || step.MarkNoShow?
  }

  lemma ReleasingWeighsLess(cfg: Config, db: Db, step: Step, slot: Slot)
    requires StayInv(db) && Releasing(step) && Moved(db, Apply(cfg, db, step), Target(step).value)
    ensures var id := Target(step).value;
            Weight(Apply(cfg, db, step).reservations[id], slot, db.now) <= Weight(db.reservations[id], slot, db.now)
  {
    ItemDemand(db, Target(step).value, slot);
  }

  lemma ReleasingKeepsCapacity(cfg: Config, db: Db, step: Step)
    requires StayInv(db) && NoOversell(db) && Releasing(step)
    requires Moved(db, Apply(cfg, db, step), Target(step).value)
    ensures NoOversell(Apply(cfg, db, step))
  {
    var db', id := Apply(cfg, db, step), Target(step).value;
    forall slot | slot in db.inventory
      ensures Weight(db'.reservations[id], slot, db.now) <= Weight(db.reservations[id], slot, db.now)
    {
      ReleasingWeighsLess(cfg, db, step, slot);
    }
    LighterMoveKeepsCapacity(db, db', id);
  }

  /** Steps that have no guard of their own to pass. */
  predicate Unguarded(step: Step) {
    !step.Create? && !step.Extend? && !step.Accept? && !step.Notify?
  }

  lemma UnguardedKeepsCapacity(cfg: Config, db: Db, step: Step)
    requires StayInv(db) && NoOversell(db) && Unguarded(step)
    ensures NoOversell(Apply(cfg, db, step))
  {
    StepMoves(cfg, db, step);
    if Releasing(step) && Moved(db, Apply(cfg, db, step), Target(step).value) {
      ReleasingKeepsCapacity(cfg, db, step);
    } else {
      SameStaysKeepCapacity(db, Apply(cfg, db, step));
    }
  }

  /** A step keeps every night within its rooms exactly when it is guarded. */
  lemma StepKeepsCapacity(cfg: Config, db: Db, step: Step)
    requires StayInv(db) && NoOversell(db)
    ensures NoOversell(Apply(cfg, db, step)) <==> Guarded(db, step)
  {
    if step.Create? {
      if CreateBooking(cfg, db, step.req).Committed? {
        CreateKeepsCapacity(cfg, db, step.req);
      }
    } else if step.Extend? {
      if ExtensionApplies(db, step.user, step.id) {
        ExtendOversellsExactly(db, step.user, step.id);
      } else {
        SameStaysKeepCapacity(db, Apply(cfg, db, step));
      }
    } else if step.Accept? {
      if step.id < |db.reservations| && db.reservations[step.id].status == PaymentPending {
        AcceptOversellsExactly(db, step.id);
      }
    } else if step.Notify? {
      NotifyKeepsCapacity(db, step.n);
    } else {
      UnguardedKeepsCapacity(cfg, db, step);
    }
  }
}
