/** Availability, hold rows and the sold counter, after booking-inventory.service.ts. */
module Inventory {
  import opened Basics
  import opened Lifecycle
  import opened Tables

  function ComputeFreeRooms(row: InventoryRow, heldRooms: int): int {
    row.totalRooms - row.blockedRooms - row.soldRooms - heldRooms
  }

  /** An active hold row counts when it is unexpired and its reservation is still holding. */
  predicate ActiveHold(h: Hold, rs: seq<Reservation>, slot: Slot, now: Time) {
    h.slot == slot && h.expiresAt > now && h.reservation < |rs| && Holding(rs[h.reservation].status)
  }

  function ActiveHoldQuantity(holds: seq<Hold>, rs: seq<Reservation>, slot: Slot, now: Time): int {
    if |holds| == 0 then 0
    else ActiveHoldQuantity(holds[..|holds| - 1], rs, slot, now)
         + if ActiveHold(holds[|holds| - 1], rs, slot, now) then holds[|holds| - 1].quantity else 0
  }

  /** Free rooms of a loaded night, computed from the rows as a transaction sees them at `now`. */
  function FreeRooms(db: Db, slot: Slot, now: Time): int
    requires slot in db.inventory
  {
    ComputeFreeRooms(db.inventory[slot], ActiveHoldQuantity(db.holds, db.reservations, slot, now))
  }

  /** The requested nights that have no row, in request order. */
  function MissingNights(db: Db, roomType: nat, nights: seq<int>): seq<int> {
    if |nights| == 0 then []
    else MissingNights(db, roomType, nights[..|nights| - 1])
         + if Slot(roomType, nights[|nights| - 1]) in db.inventory then [] else [nights[|nights| - 1]]
  }

  /** Loaded nights whose free rooms fall short of the need, with what is left there. */
  function ShortNights(db: Db, roomType: nat, nights: seq<int>, needed: int, now: Time): seq<(int, int)> {
    if |nights| == 0 then []
    else
      var slot := Slot(roomType, nights[|nights| - 1]);
      ShortNights(db, roomType, nights[..|nights| - 1], needed, now)
      + if slot in db.inventory && FreeRooms(db, slot, now) < needed
        then [(slot.night, FreeRooms(db, slot, now))] else []
  }

  datatype Availability =
    | Available
    | Missing(dates: seq<int>)
    | Short(nights: seq<(int, int)>)

  function CheckAvailability(db: Db, roomType: nat, nights: seq<int>, needed: int, now: Time): Availability {
    var missing := MissingNights(db, roomType, nights);
    if |missing| > 0 then Missing(missing)
    else
      var short := ShortNights(db, roomType, nights, needed, now);
      if |short| > 0 then Short(short) else Available
  }

  /** Every night of the stay is loaded and has room for the item, at the given clock reading. */
  ghost predicate Fits(db: Db, item: Item, now: Time) {
    forall slot | Covers(item, slot) :: slot in db.inventory && FreeRooms(db, slot, now) >= item.quantity
  }

  lemma {:induction false} MissingNightsExact(db: Db, roomType: nat, nights: seq<int>)
    ensures |MissingNights(db, roomType, nights)| == 0
            <==> forall i | 0 <= i < |nights| :: Slot(roomType, nights[i]) in db.inventory
  {
    if |nights| > 0 {
      var front := nights[..|nights| - 1];
      MissingNightsExact(db, roomType, front);
      assert forall i | 0 <= i < |front| :: front[i] == nights[i];
      assert nights == front + [nights[|nights| - 1]];
    }
  }

  lemma {:induction false} ShortNightsExact(db: Db, roomType: nat, nights: seq<int>, needed: int, now: Time)
    requires forall i | 0 <= i < |nights| :: Slot(roomType, nights[i]) in db.inventory
    ensures |ShortNights(db, roomType, nights, needed, now)| == 0
            <==> forall i | 0 <= i < |nights| :: FreeRooms(db, Slot(roomType, nights[i]), now) >= needed
  {
    if |nights| > 0 {
      var front := nights[..|nights| - 1];
      assert forall i | 0 <= i < |front| :: front[i] == nights[i];
      assert nights == front + [nights[|nights| - 1]];
      ShortNightsExact(db, roomType, front, needed, now);
    }
  }

  /** The check passes exactly when every night is loaded and has room. */
  lemma CheckAvailabilityExact(db: Db, roomType: nat, nights: seq<int>, needed: int, now: Time)
    ensures CheckAvailability(db, roomType, nights, needed, now).Available?
            <==> forall i | 0 <= i < |nights| ::
                   Slot(roomType, nights[i]) in db.inventory && FreeRooms(db, Slot(roomType, nights[i]), now) >= needed
  {
    MissingNightsExact(db, roomType, nights);
    if |MissingNights(db, roomType, nights)| == 0 {
      ShortNightsExact(db, roomType, nights, needed, now);
    }
  }

  lemma AvailableIsFits(db: Db, item: Item, now: Time)
    ensures CheckAvailability(db, item.roomType, EachNight(item.checkIn, item.checkOut), item.quantity, now).Available?
            <==> Fits(db, item, now)
  {
    var nights := EachNight(item.checkIn, item.checkOut);
    CheckAvailabilityExact(db, item.roomType, nights, item.quantity, now);
    forall slot | Covers(item, slot) ensures slot == Slot(item.roomType, nights[slot.night - item.checkIn]) {}
    forall i | 0 <= i < |nights| ensures Covers(item, Slot(item.roomType, nights[i])) {}
  }

  // ---- hold rows

  function BuildHoldRows(reservation: nat, item: Item, expiresAt: Time): (rows: seq<Hold>) {
    var nights := EachNight(item.checkIn, item.checkOut);
    seq(|nights|, i requires 0 <= i < |nights| =>
      Hold(reservation, Slot(item.roomType, nights[i]), item.quantity, expiresAt))
  }

  /** The hold rows of one reservation, in table order. */
  function HoldsOf(holds: seq<Hold>, reservation: nat): seq<Hold> {
    if |holds| == 0 then []
    else HoldsOf(holds[..|holds| - 1], reservation)
         + if holds[|holds| - 1].reservation == reservation then [holds[|holds| - 1]] else []
  }

  /** The hold rows of all other reservations, in table order. */
  function ReleaseHolds(holds: seq<Hold>, reservation: nat): seq<Hold> {
    if |holds| == 0 then []
    else ReleaseHolds(holds[..|holds| - 1], reservation)
         + if holds[|holds| - 1].reservation == reservation then [] else [holds[|holds| - 1]]
  }

  /** Rewrites the expiry on every hold row of one reservation. */
  function RestampHolds(holds: seq<Hold>, reservation: nat, expiresAt: Time): seq<Hold> {
    if |holds| == 0 then []
    else RestampHolds(holds[..|holds| - 1], reservation, expiresAt)
         + [if holds[|holds| - 1].reservation == reservation
            then holds[|holds| - 1].(expiresAt := expiresAt) else holds[|holds| - 1]]
  }

  /** Rooms the given hold rows take on a night, whatever their expiry. */
  function RowQuantity(rows: seq<Hold>, slot: Slot): int {
    if |rows| == 0 then 0
    else RowQuantity(rows[..|rows| - 1], slot)
         + if rows[|rows| - 1].slot == slot then rows[|rows| - 1].quantity else 0
  }

  lemma {:induction false} HoldsOfAppend(holds: seq<Hold>, rows: seq<Hold>, reservation: nat)
    ensures HoldsOf(holds + rows, reservation) == HoldsOf(holds, reservation) + HoldsOf(rows, reservation)
  {
    if |rows| == 0 {
      assert holds + rows == holds;
    } else {
      assert (holds + rows)[..|holds + rows| - 1] == holds + rows[..|rows| - 1];
      HoldsOfAppend(holds, rows[..|rows| - 1], reservation);
    }
  }

  lemma {:induction false} HoldsOfUniform(rows: seq<Hold>, owner: nat, reservation: nat)
    requires forall i | 0 <= i < |rows| :: rows[i].reservation == owner
    ensures HoldsOf(rows, reservation) == if owner == reservation then rows else []
  {
    if |rows| > 0 {
      HoldsOfUniform(rows[..|rows| - 1], owner, reservation);
      assert rows == rows[..|rows| - 1] + [rows[|rows| - 1]];
    }
  }

  lemma {:induction false} HoldsOfRelease(holds: seq<Hold>, released: nat, reservation: nat)
    ensures HoldsOf(ReleaseHolds(holds, released), reservation)
            == if released == reservation then [] else HoldsOf(holds, reservation)
  {
    if |holds| > 0 {
      var front, last := holds[..|holds| - 1], holds[|holds| - 1];
      HoldsOfRelease(front, released, reservation);
      if last.reservation == released {
        assert ReleaseHolds(holds, released) == ReleaseHolds(front, released);
      } else {
        HoldsOfAppend(ReleaseHolds(front, released), [last], reservation);
        HoldsOfUniform([last], last.reservation, reservation);
      }
    }
  }

  lemma {:induction false} HoldsOfRestamp(holds: seq<Hold>, stamped: nat, t: Time, reservation: nat)
    ensures stamped != reservation ==> HoldsOf(RestampHolds(holds, stamped, t), reservation) == HoldsOf(holds, reservation)
    ensures stamped == reservation ==>
              HoldsOf(RestampHolds(holds, stamped, t), reservation) == RestampHolds(HoldsOf(holds, reservation), stamped, t)
  {
    if |holds| > 0 {
      var front, last := holds[..|holds| - 1], holds[|holds| - 1];
      HoldsOfRestamp(front, stamped, t, reservation);
      var last' := if last.reservation == stamped then last.(expiresAt := t) else last;
      HoldsOfAppend(RestampHolds(front, stamped, t), [last'], reservation);
      HoldsOfUniform([last'], last'.reservation, reservation);
      var rest := HoldsOf(front, reservation);
      if last.reservation == reservation {
        assert (rest + [last])[..|rest|] == rest;
      } else {
        assert HoldsOf(holds, reservation) == rest;
      }
    }
  }

  /** Restamping the rows a booking wrote gives the rows a booking with that expiry would write. */
  lemma RestampBuilt(reservation: nat, item: Item, t: Time, t': Time)
    ensures RestampHolds(BuildHoldRows(reservation, item, t), reservation, t') == BuildHoldRows(reservation, item, t')
  {
    RestampPointwise(BuildHoldRows(reservation, item, t), reservation, t');
  }

  lemma {:induction false} RestampPointwise(holds: seq<Hold>, reservation: nat, t: Time)
    ensures |RestampHolds(holds, reservation, t)| == |holds|
    ensures forall i | 0 <= i < |holds| :: RestampHolds(holds, reservation, t)[i]
              == if holds[i].reservation == reservation then holds[i].(expiresAt := t) else holds[i]
  {
    if |holds| > 0 {
      RestampPointwise(holds[..|holds| - 1], reservation, t);
    }
  }

  lemma {:induction false} ReleaseKeepsOwners(holds: seq<Hold>, released: nat, n: nat)
    requires forall i | 0 <= i < |holds| :: holds[i].reservation < n
    ensures forall h | h in ReleaseHolds(holds, released) :: h.reservation < n
  {
    if |holds| > 0 {
      ReleaseKeepsOwners(holds[..|holds| - 1], released, n);
    }
  }

  /** A prefix of the rows built for an item takes the item's quantity once on each night it reaches. */
  lemma {:induction false} BuiltRowQuantity(reservation: nat, item: Item, t: Time, slot: Slot, k: nat)
    requires k <= |BuildHoldRows(reservation, item, t)|
    ensures RowQuantity(BuildHoldRows(reservation, item, t)[..k], slot)
            == if slot.roomType == item.roomType && item.checkIn <= slot.night < item.checkIn + k then item.quantity else 0
  {
    var rows := BuildHoldRows(reservation, item, t);
    if k > 0 {
      BuiltRowQuantity(reservation, item, t, slot, k - 1);
      assert rows[..k][..k - 1] == rows[..k - 1];
    }
  }

  lemma BuiltDemand(reservation: nat, item: Item, t: Time, slot: Slot)
    ensures RowQuantity(BuildHoldRows(reservation, item, t), slot) == Demand([item], slot)
  {
    var rows := BuildHoldRows(reservation, item, t);
    BuiltRowQuantity(reservation, item, t, slot, |rows|);
    assert rows[..|rows|] == rows;
  }

  // ---- the sold counter

  /** Adds a reservation's hold rows to the counters of their nights. */
  function SellHolds(inventory: map<Slot, InventoryRow>, rows: seq<Hold>): map<Slot, InventoryRow> {
    map slot | slot in inventory ::
      inventory[slot].(soldRooms := inventory[slot].soldRooms + RowQuantity(rows, slot))
  }

  function SellRooms(inventory: map<Slot, InventoryRow>, item: Item): map<Slot, InventoryRow> {
    map slot | slot in inventory ::
      if Covers(item, slot) then inventory[slot].(soldRooms := inventory[slot].soldRooms + item.quantity)
      else inventory[slot]
  }

  function SellItems(inventory: map<Slot, InventoryRow>, items: seq<Item>): map<Slot, InventoryRow> {
    if |items| == 0 then inventory
    else SellRooms(SellItems(inventory, items[..|items| - 1]), items[|items| - 1])
  }

  function RestoreRooms(inventory: map<Slot, InventoryRow>, item: Item): map<Slot, InventoryRow> {
    map slot | slot in inventory ::
      if Covers(item, slot) then inventory[slot].(soldRooms := Max(inventory[slot].soldRooms - item.quantity, 0))
      else inventory[slot]
  }

  function RestoreItems(inventory: map<Slot, InventoryRow>, items: seq<Item>): map<Slot, InventoryRow> {
    if |items| == 0 then inventory
    else RestoreRooms(RestoreItems(inventory, items[..|items| - 1]), items[|items| - 1])
  }

  lemma {:induction false} SellItemsAddsDemand(inventory: map<Slot, InventoryRow>, items: seq<Item>)
    ensures SellItems(inventory, items).Keys == inventory.Keys
    ensures forall slot | slot in inventory ::
              SellItems(inventory, items)[slot]
              == inventory[slot].(soldRooms := inventory[slot].soldRooms + Demand(items, slot))
  {
    if |items| > 0 {
      SellItemsAddsDemand(inventory, items[..|items| - 1]);
    }
  }

  lemma {:induction false} DemandNonNegative(items: seq<Item>, slot: Slot)
    requires forall i | 0 <= i < |items| :: items[i].quantity >= 0
    ensures Demand(items, slot) >= 0
  {
    if |items| > 0 {
      DemandNonNegative(items[..|items| - 1], slot);
    }
  }

  /** Where the counters include the demand, the clamp at zero never bites. */
  lemma {:induction false} RestoreItemsTakesDemand(inventory: map<Slot, InventoryRow>, items: seq<Item>)
    requires forall i | 0 <= i < |items| :: items[i].quantity >= 0
    requires forall slot | slot in inventory :: inventory[slot].soldRooms >= Demand(items, slot)
    ensures RestoreItems(inventory, items).Keys == inventory.Keys
    ensures forall slot | slot in inventory ::
              RestoreItems(inventory, items)[slot]
              == inventory[slot].(soldRooms := inventory[slot].soldRooms - Demand(items, slot))
  {
    if |items| > 0 {
      var front := items[..|items| - 1];
      forall slot | slot in inventory ensures inventory[slot].soldRooms >= Demand(front, slot) {
        DemandNonNegative(front, slot);
      }
      RestoreItemsTakesDemand(inventory, front);
    }
  }

  lemma DemandSingle(item: Item, slot: Slot)
    ensures Demand([item], slot) == if Covers(item, slot) then item.quantity else 0
  {
    assert [item][..0] == [];
  }
}
