/** Every transaction keeps the sold counter, the hold rows and the reservations in agreement. */
module StayProofs {
  import opened Lifecycle
  import opened Tables
  import opened Inventory
  import opened Invariants

  // ---- hold rows against reservations

  /** Active quantity of the hold rows whose reservation id lies below `n`. */
  function QuantityBelow(holds: seq<Hold>, rs: seq<Reservation>, slot: Slot, now: Time, n: nat): int {
    if |holds| == 0 then 0
    else QuantityBelow(holds[..|holds| - 1], rs, slot, now, n)
         + if ActiveHold(holds[|holds| - 1], rs, slot, now) && holds[|holds| - 1].reservation < n
           then holds[|holds| - 1].quantity else 0
  }

  lemma {:induction false} QuantityBelowStep(holds: seq<Hold>, rs: seq<Reservation>, slot: Slot, now: Time, n: nat)
    ensures QuantityBelow(holds, rs, slot, now, n + 1)
            == QuantityBelow(holds, rs, slot, now, n) + ActiveHoldQuantity(HoldsOf(holds, n), rs, slot, now)
  {
    if |holds| > 0 {
      var front, last := holds[..|holds| - 1], holds[|holds| - 1];
      QuantityBelowStep(front, rs, slot, now, n);
      if last.reservation != n {
        assert HoldsOf(holds, n) == HoldsOf(front, n);
      }
    }
  }

  lemma {:induction false} QuantityBelowEnds(holds: seq<Hold>, rs: seq<Reservation>, slot: Slot, now: Time)
    ensures QuantityBelow(holds, rs, slot, now, 0) == 0
    ensures QuantityBelow(holds, rs, slot, now, |rs|) == ActiveHoldQuantity(holds, rs, slot, now)
  {
    if |holds| > 0 {
      QuantityBelowEnds(holds[..|holds| - 1], rs, slot, now);
    }
  }

  lemma {:induction false} ActiveUniform(rows: seq<Hold>, rs: seq<Reservation>, slot: Slot, now: Time, id: nat, t: Time)
    requires id < |rs| && Holding(rs[id].status)
    requires forall i | 0 <= i < |rows| :: rows[i].reservation == id && rows[i].expiresAt == t
    ensures ActiveHoldQuantity(rows, rs, slot, now) == if t > now then RowQuantity(rows, slot) else 0
  {
    if |rows| > 0 {
      ActiveUniform(rows[..|rows| - 1], rs, slot, now, id, t);
    }
  }

  lemma ExpectedActive(rs: seq<Reservation>, id: nat, slot: Slot, now: Time)
    requires id < |rs| && |rs[id].items| == 1 && StampOk(rs[id])
    ensures ActiveHoldQuantity(ExpectedHolds(id, rs[id]), rs, slot, now) == HeldWeight(rs[id], slot, now)
  {
    var r := rs[id];
    if r.status == PaymentPending {
      var t := r.holdExpiresAt.value;
      ActiveUniform(ExpectedHolds(id, r), rs, slot, now, id, t);
      BuiltDemand(id, r.items[0], t, slot);
      assert r.items == [r.items[0]];
    }
  }

  lemma {:induction false} QuantityBelowIsHeld(inventory: map<Slot, InventoryRow>, rs: seq<Reservation>, holds: seq<Hold>,
                                               slot: Slot, now: Time, n: nat)
    requires RowsOk(inventory, rs) && HoldsOk(rs, holds) && n <= |rs|
    ensures QuantityBelow(holds, rs, slot, now, n) == HeldBy(rs[..n], slot, now)
  {
    QuantityBelowEnds(holds, rs, slot, now);
    if n > 0 {
      QuantityBelowIsHeld(inventory, rs, holds, slot, now, n - 1);
      QuantityBelowStep(holds, rs, slot, now, n - 1);
      assert HoldRowsMatch(rs, holds, n - 1) && RowOk(inventory, rs, n - 1);
      ExpectedActive(rs, n - 1, slot, now);
      LoadSnoc(rs[..n - 1], rs[n - 1], slot, now);
      assert rs[..n] == rs[..n - 1] + [rs[n - 1]];
    }
  }

  /** The hold rows the availability query sums are exactly the pending reservations' live demand. */
  lemma ActiveHoldsAreLiveDemand(db: Db, slot: Slot, now: Time)
    requires StayInv(db)
    ensures ActiveHoldQuantity(db.holds, db.reservations, slot, now) == HeldBy(db.reservations, slot, now)
  {
    QuantityBelowIsHeld(db.inventory, db.reservations, db.holds, slot, now, |db.reservations|);
    QuantityBelowEnds(db.holds, db.reservations, slot, now);
    assert db.reservations[..|db.reservations|] == db.reservations;
  }

  lemma FreeIsCapacityLeft(db: Db, slot: Slot, now: Time)
    requires StayInv(db) && slot in db.inventory
    ensures FreeRooms(db, slot, now)
            == db.inventory[slot].totalRooms - db.inventory[slot].blockedRooms
               - SoldBy(db.reservations, slot) - HeldBy(db.reservations, slot, now)
  {
    ActiveHoldsAreLiveDemand(db, slot, now);
  }

  // ---- one reservation moves

  /** The tables differ in reservation `id` only, and its hold rows and counters follow it. */
  ghost predicate Moves(db: Db, db': Db, id: nat, r': Reservation) {
    && id < |db.reservations|
    && r'.items == db.reservations[id].items
    && db'.reservations == db.reservations[id := r']
    && db'.inventory.Keys == db.inventory.Keys
    && (forall slot | slot in db.inventory ::
          db'.inventory[slot] == db.inventory[slot].(
            soldRooms := db.inventory[slot].soldRooms - SoldWeight(db.reservations[id], slot) + SoldWeight(r', slot)))
    && (|| (db'.holds == db.holds && ExpectedHolds(id, r') == ExpectedHolds(id, db.reservations[id]))
        || (db'.holds == ReleaseHolds(db.holds, id) && ExpectedHolds(id, r') == [])
        || (r'.holdExpiresAt.Some? && db'.holds == RestampHolds(db.holds, id, r'.holdExpiresAt.value)
            && r' == db.reservations[id].(holdExpiresAt := r'.holdExpiresAt) && r'.status == PaymentPending))
  }

  lemma MoveKeepsHolds(db: Db, db': Db, id: nat, r': Reservation)
    requires StayInv(db) && Moves(db, db', id, r') && StampOk(r')
    ensures HoldsOk(db'.reservations, db'.holds)
  {
    if db'.holds == ReleaseHolds(db.holds, id) && ExpectedHolds(id, r') == [] {
      ReleaseMatches(db.reservations, db.holds, id, r');
    } else if db'.holds == db.holds && ExpectedHolds(id, r') == ExpectedHolds(id, db.reservations[id]) {
      SameRowsMatch(db.reservations, db.holds, id, r');
    } else {
      assert RowOk(db.inventory, db.reservations, id);
      RestampMatches(db.reservations, db.holds, id, r');
    }
  }

  lemma ReleaseMatches(rs: seq<Reservation>, holds: seq<Hold>, id: nat, r': Reservation)
    requires HoldsOk(rs, holds) && id < |rs| && ExpectedHolds(id, r') == []
    ensures HoldsOk(rs[id := r'], ReleaseHolds(holds, id))
  {
    var rs', holds' := rs[id := r'], ReleaseHolds(holds, id);
    ReleaseKeepsOwners(holds, id, |rs|);
    forall k | 0 <= k < |rs'| ensures HoldRowsMatch(rs', holds', k) {
      assert HoldRowsMatch(rs, holds, k);
      HoldsOfRelease(holds, id, k);
    }
    forall i | 0 <= i < |holds'| ensures holds'[i].reservation < |rs| {
      assert holds'[i] in holds';
    }
  }

  lemma SameRowsMatch(rs: seq<Reservation>, holds: seq<Hold>, id: nat, r': Reservation)
    requires HoldsOk(rs, holds) && id < |rs| && ExpectedHolds(id, r') == ExpectedHolds(id, rs[id])
    ensures HoldsOk(rs[id := r'], holds)
  {
    var rs' := rs[id := r'];
    forall k | 0 <= k < |rs'| ensures HoldRowsMatch(rs', holds, k) {
      assert HoldRowsMatch(rs, holds, k);
    }
  }

  lemma RestampMatches(rs: seq<Reservation>, holds: seq<Hold>, id: nat, r': Reservation)
    requires HoldsOk(rs, holds) && id < |rs| && |rs[id].items| == 1 && rs[id].status == PaymentPending && rs[id].holdExpiresAt.Some?
    requires r'.holdExpiresAt.Some? && r' == rs[id].(holdExpiresAt := r'.holdExpiresAt)
    ensures HoldsOk(rs[id := r'], RestampHolds(holds, id, r'.holdExpiresAt.value))
  {
    var t := r'.holdExpiresAt.value;
    RestampPointwise(holds, id, t);
    RestampBuilt(id, rs[id].items[0], rs[id].holdExpiresAt.value, t);
    var rs', holds' := rs[id := r'], RestampHolds(holds, id, t);
    forall k | 0 <= k < |rs'| ensures HoldRowsMatch(rs', holds', k) {
      assert HoldRowsMatch(rs, holds, k);
      HoldsOfRestamp(holds, id, t, k);
    }
  }

  /** The sold counter follows any single move. */
  lemma MoveKeepsStays(db: Db, db': Db, id: nat, r': Reservation)
    requires StayInv(db) && Moves(db, db', id, r') && StampOk(r')
    ensures StayInv(db')
  {
    MoveKeepsHolds(db, db', id, r');
    forall k | 0 <= k < |db'.reservations| ensures RowOk(db'.inventory, db'.reservations, k) {
      assert RowOk(db.inventory, db.reservations, k);
      assert RowOk(db.inventory, db.reservations, id);
    }
    forall slot | slot in db'.inventory
      ensures db'.inventory[slot].soldRooms == SoldBy(db'.reservations, slot)
    {
      LoadUpdate(db.reservations, id, r', slot, db.now);
    }
  }

  /** A move shifts the free rooms of every night by exactly the change of the reservation's weight. */
  lemma MoveShiftsFreeRooms(db: Db, db': Db, id: nat, r': Reservation, slot: Slot, now: Time)
    requires StayInv(db) && Moves(db, db', id, r') && StampOk(r')
    requires slot in db.inventory
    ensures FreeRooms(db', slot, now)
            == FreeRooms(db, slot, now) + Weight(db.reservations[id], slot, now) - Weight(r', slot, now)
  {
    MoveKeepsStays(db, db', id, r');
    FreeIsCapacityLeft(db, slot, now);
    FreeIsCapacityLeft(db', slot, now);
    LoadUpdate(db.reservations, id, r', slot, now);
  }
}
