/** BookingInventoryService: hold rows and the sold counter, changed in place. */
module InventoryOps {
  import opened Basics
  import opened Tables
  import opened Inventory
  import opened Transactions
  import opened Storage

  /** The loop of admin.utils.ts: a cursor walks from the first night to the check-out day. */
  method CollectNights(start: int, end: int) returns (nights: seq<int>)
    ensures nights == EachNight(start, end)
    ensures forall night :: night in nights <==> start <= night < end
  {
    nights := [];
    var cursor := start;
    while cursor < end
      invariant nights == EachNight(start, cursor)
      invariant start <= cursor && (cursor <= end || nights == [])
      decreases end - cursor
    {
      nights := nights + [cursor];
      cursor := cursor + 1;
    }
    assert nights == EachNight(start, end);
    forall night ensures night in nights <==> start <= night < end {
      EachNightCovers(start, end, night);
    }
  }

  datatype NightAvailability = NightAvailability(night: int, heldRooms: int, freeRooms: int)

  /** Loaded nights in request order, each with what is left on it. */
  function LoadNights(db: Db, roomType: nat, nights: seq<int>, now: Time): seq<NightAvailability> {
    if |nights| == 0 then []
    else
      var slot := Slot(roomType, nights[|nights| - 1]);
      LoadNights(db, roomType, nights[..|nights| - 1], now)
      + if slot in db.inventory
        then [NightAvailability(slot.night, ActiveHoldQuantity(db.holds, db.reservations, slot, now), FreeRooms(db, slot, now))]
        else []
  }

  function ShortOf(loaded: seq<NightAvailability>, needed: int): seq<(int, int)> {
    if |loaded| == 0 then []
    else
      var last := loaded[|loaded| - 1];
      ShortOf(loaded[..|loaded| - 1], needed) + if last.freeRooms < needed then [(last.night, last.freeRooms)] else []
  }

  /** Filtering the loaded nights finds the short nights of the request. */
  lemma {:induction false} ShortOfLoaded(db: Db, roomType: nat, nights: seq<int>, needed: int, now: Time)
    ensures ShortOf(LoadNights(db, roomType, nights, now), needed) == ShortNights(db, roomType, nights, needed, now)
  {
    if |nights| > 0 {
      var front := nights[..|nights| - 1];
      var loaded := LoadNights(db, roomType, front, now);
      ShortOfLoaded(db, roomType, front, needed, now);
      if Slot(roomType, nights[|nights| - 1]) in db.inventory {
        assert LoadNights(db, roomType, nights, now)[..|loaded|] == loaded;
      } else {
        assert LoadNights(db, roomType, nights, now) == loaded;
      }
    }
  }

  /** `e` reports the requested night at position `i`, as the rows are. */
  predicate Reports(db: Db, roomType: nat, nights: seq<int>, now: Time, e: NightAvailability, i: nat) {
    && i < |nights| && e.night == nights[i]
    && Slot(roomType, e.night) in db.inventory
    && e.heldRooms == ActiveHoldQuantity(db.holds, db.reservations, Slot(roomType, e.night), now)
    && e.freeRooms == FreeRooms(db, Slot(roomType, e.night), now)
  }

  /** The entries report, in the order of the request, just the requested nights that have a row. */
  ghost predicate ReportsLoaded(db: Db, roomType: nat, nights: seq<int>, now: Time, loaded: seq<NightAvailability>, at: seq<nat>) {
    && |at| == |loaded|
    && (forall k | 0 <= k < |loaded| :: Reports(db, roomType, nights, now, loaded[k], at[k]))
    && (forall j, k | 0 <= j < k < |at| :: at[j] < at[k])
    && forall i | 0 <= i < |nights| && Slot(roomType, nights[i]) in db.inventory :: i in at
  }

  lemma NextNight(db: Db, roomType: nat, nights: seq<int>, night: int, now: Time)
    ensures var slot := Slot(roomType, night);
            if slot in db.inventory then
              && MissingNights(db, roomType, nights + [night]) == MissingNights(db, roomType, nights)
              && LoadNights(db, roomType, nights + [night], now)
                 == LoadNights(db, roomType, nights, now)
                    + [NightAvailability(night, ActiveHoldQuantity(db.holds, db.reservations, slot, now), FreeRooms(db, slot, now))]
            else
              && MissingNights(db, roomType, nights + [night]) == MissingNights(db, roomType, nights) + [night]
              && LoadNights(db, roomType, nights + [night], now) == LoadNights(db, roomType, nights, now)
  {
    assert (nights + [night])[..|nights|] == nights;
  }

  lemma {:induction false} MissingNightsMembers(db: Db, roomType: nat, nights: seq<int>)
    ensures forall night :: night in MissingNights(db, roomType, nights) <==> night in nights && Slot(roomType, night) !in db.inventory
  {
    if |nights| > 0 {
      MissingNightsMembers(db, roomType, nights[..|nights| - 1]);
      assert nights == nights[..|nights| - 1] + [nights[|nights| - 1]];
    }
  }

  class BookingInventoryService {
    const db: Database

    constructor (db: Database)
      ensures this.db == db
    {
      this.db := db;
    }

    /** Entry `k` of `loaded` is about the night at position `at[k]` of the request. */
    method LockAndLoadAvailability(roomType: nat, nights: seq<int>, now: Time)
      returns (loaded: seq<NightAvailability>, missing: seq<int>, ghost at: seq<nat>)
      ensures missing == MissingNights(db.Snapshot(), roomType, nights)
      ensures loaded == LoadNights(db.Snapshot(), roomType, nights, now)
      ensures forall night :: night in missing <==> night in nights && Slot(roomType, night) !in db.inventory
      ensures ReportsLoaded(db.Snapshot(), roomType, nights, now, loaded, at)
    {
      loaded, missing, at := [], [], [];
      ghost var tables := db.Snapshot();
      for i := 0 to |nights|
        invariant missing == MissingNights(tables, roomType, nights[..i])
        invariant loaded == LoadNights(tables, roomType, nights[..i], now)
        invariant ReportsLoaded(tables, roomType, nights[..i], now, loaded, at)
      {
        var slot := Slot(roomType, nights[i]);
        assert nights[..i + 1] == nights[..i] + [nights[i]];
        NextNight(tables, roomType, nights[..i], nights[i], now);
        if slot in db.inventory {
          var row, heldRooms := db.inventory[slot], ActiveHoldQuantity(db.holds, db.reservations, slot, now);
          var night := NightAvailability(nights[i], heldRooms, ComputeFreeRooms(row, heldRooms));
          loaded := loaded + [night];
          at := at + [i];
        } else {
          missing := missing + [nights[i]];
        }
      }
      assert nights[..|nights|] == nights;
      MissingNightsMembers(tables, roomType, nights);
    }

    method LockAndAssertAvailable(roomType: nat, nights: seq<int>, needed: int, now: Time) returns (r: Availability)
      ensures r == CheckAvailability(db.Snapshot(), roomType, nights, needed, now)
      ensures r.Available? <==>
                forall i | 0 <= i < |nights| ::
                  Slot(roomType, nights[i]) in db.inventory && FreeRooms(db.Snapshot(), Slot(roomType, nights[i]), now) >= needed
    {
      var loaded, missing, _ := LockAndLoadAvailability(roomType, nights, now);
      CheckAvailabilityExact(db.Snapshot(), roomType, nights, needed, now);
      ShortOfLoaded(db.Snapshot(), roomType, nights, needed, now);
      if |missing| > 0 { return Missing(missing); }
      var short := ShortOf(loaded, needed);
      if |short| > 0 { return Short(short); }
      return Available;
    }

    /** Returns how many counters moved: the loaded nights the reservation holds. */
    method ConvertHoldsToSold(id: nat) returns (updated: nat)
      modifies db`inventory, db`holds
      ensures db.Snapshot() == Transactions.ConvertHoldsToSold(old(db.Snapshot()), id)
      ensures HoldsOf(db.holds, id) == []
      ensures forall slot | slot in db.inventory :: slot in old(db.inventory)
                && db.inventory[slot].soldRooms == old(db.inventory[slot].soldRooms) + RowQuantity(old(HoldsOf(db.holds, id)), slot)
      ensures updated == |set h | h in old(HoldsOf(db.holds, id)) && h.slot in old(db.inventory) :: h.slot|
    {
      var held := HoldsOf(db.holds, id);
      updated := |set h | h in held && h.slot in db.inventory :: h.slot|;
      db.inventory := map slot | slot in db.inventory ::
        db.inventory[slot].(soldRooms := db.inventory[slot].soldRooms + RowQuantity(held, slot));
      HoldsOfRelease(db.holds, id, id);
      var _ := ReleaseHolds(id);
    }

    /** Returns how many counters moved. */
    method SellRooms(roomType: nat, nights: seq<int>, quantity: int) returns (updated: nat)
      modifies db`inventory
      ensures db.inventory.Keys == old(db.inventory.Keys)
      ensures forall slot | slot in db.inventory :: db.inventory[slot] ==
                if slot.roomType == roomType && slot.night in nights
                then old(db.inventory[slot]).(soldRooms := old(db.inventory[slot]).soldRooms + quantity)
                else old(db.inventory[slot])
      ensures updated == |set slot | slot in old(db.inventory) && slot.roomType == roomType && slot.night in nights|
    {
      updated := |set slot | slot in db.inventory && slot.roomType == roomType && slot.night in nights|;
      db.inventory := map slot | slot in db.inventory ::
        if slot.roomType == roomType && slot.night in nights
        then db.inventory[slot].(soldRooms := db.inventory[slot].soldRooms + quantity)
        else db.inventory[slot];
    }

    method ReleaseHolds(id: nat) returns (count: nat)
      modifies db`holds
      ensures db.holds == Inventory.ReleaseHolds(old(db.holds), id)
      ensures count == |HoldsOf(old(db.holds), id)|
      ensures forall other :: HoldsOf(db.holds, other) == if other == id then [] else HoldsOf(old(db.holds), other)
    {
      count := |HoldsOf(db.holds, id)|;
      forall other ensures HoldsOf(Inventory.ReleaseHolds(db.holds, id), other) == if other == id then [] else HoldsOf(db.holds, other) {
        HoldsOfRelease(db.holds, id, other);
      }
      db.holds := Inventory.ReleaseHolds(db.holds, id);
    }
  }
}
