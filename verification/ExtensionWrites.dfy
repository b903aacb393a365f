/** The two writes of a hold extension, when several extensions of one booking overlap. */
module ExtensionWrites {
  import opened Basics
  import opened Lifecycle
  import opened Tables
  import opened Inventory
  import opened Transactions
  import opened Invariants

  // An extension rewrites the expiry of the reservation and, in a statement of its own, that of the hold rows.

  datatype HalfWrite = OnStay(until: Time) | OnRows(until: Time)

  function WriteHalf(db: Db, id: nat, w: HalfWrite): Db
    requires id < |db.reservations|
  {
    match w
    case OnStay(t) => db.(reservations := db.reservations[id := db.reservations[id].(holdExpiresAt := Some(t))])
    case OnRows(t) => db.(holds := RestampHolds(db.holds, id, t))
  }

  /** The halves of any extensions of one booking, in the order in which they are written. */
  function WriteHalves(db: Db, id: nat, ws: seq<HalfWrite>): (r: Db)
    requires id < |db.reservations|
    ensures |r.reservations| == |db.reservations|
  {
    if |ws| == 0 then db else WriteHalf(WriteHalves(db, id, ws[..|ws| - 1]), id, ws[|ws| - 1])
  }

  function LastStay(ws: seq<HalfWrite>, before: Time): Time {
    if |ws| == 0 then before else if ws[|ws| - 1].OnStay? then ws[|ws| - 1].until else LastStay(ws[..|ws| - 1], before)
  }

  function LastRows(ws: seq<HalfWrite>, before: Time): Time {
    if |ws| == 0 then before else if ws[|ws| - 1].OnRows? then ws[|ws| - 1].until else LastRows(ws[..|ws| - 1], before)
  }

  lemma {:induction false} RestampTwice(holds: seq<Hold>, id: nat, a: Time, b: Time)
    ensures RestampHolds(RestampHolds(holds, id, a), id, b) == RestampHolds(holds, id, b)
  {
    if |holds| > 0 {
      var front, rows := holds[..|holds| - 1], RestampHolds(holds, id, a);
      RestampTwice(front, id, a, b);
      assert rows[..|rows| - 1] == RestampHolds(front, id, a);
    }
  }

  lemma {:induction false} RestampSame(holds: seq<Hold>, id: nat, t: Time)
    requires forall i | 0 <= i < |HoldsOf(holds, id)| :: HoldsOf(holds, id)[i].expiresAt == t
    ensures RestampHolds(holds, id, t) == holds
  {
    if |holds| > 0 {
      var front, last := holds[..|holds| - 1], holds[|holds| - 1];
      var before := HoldsOf(front, id);
      assert forall i | 0 <= i < |before| :: before[i] == HoldsOf(holds, id)[i];
      assert last.reservation == id ==> last == HoldsOf(holds, id)[|before|];
      RestampSame(front, id, t);
      assert holds == front + [last];
    }
  }

  /** Of all the halves only the last on either side is left. */
  lemma {:induction false} LastHalvesCount(db: Db, id: nat, ws: seq<HalfWrite>, t: Time)
    requires id < |db.reservations| && db.reservations[id].holdExpiresAt == Some(t) && RestampHolds(db.holds, id, t) == db.holds
    ensures WriteHalves(db, id, ws)
            == db.(reservations := db.reservations[id := db.reservations[id].(holdExpiresAt := Some(LastStay(ws, t)))],
                   holds := RestampHolds(db.holds, id, LastRows(ws, t)))
  {
    if |ws| == 0 {
      assert db.reservations[id := db.reservations[id].(holdExpiresAt := Some(t))] == db.reservations;
    } else {
      var front := ws[..|ws| - 1];
      LastHalvesCount(db, id, front, t);
      if ws[|ws| - 1].OnRows? {
        RestampTwice(db.holds, id, LastRows(front, t), ws[|ws| - 1].until);
      }
    }
  }

  lemma RowsOfPending(db: Db, id: nat)
    requires StayInv(db) && id < |db.reservations| && db.reservations[id].status == PaymentPending
    ensures db.reservations[id].holdExpiresAt.Some?
    ensures RestampHolds(db.holds, id, db.reservations[id].holdExpiresAt.value) == db.holds
    ensures |HoldsOf(db.holds, id)| > 0
  {
    assert RowOk(db.inventory, db.reservations, id) && HoldRowsMatch(db.reservations, db.holds, id);
    RestampSame(db.holds, id, db.reservations[id].holdExpiresAt.value);
  }

  /**
   * However the halves of extensions are interleaved, the booking and its hold rows agree in the end exactly when
   * the last half written to either says the same.
   */
  lemma ExtensionsAgreeExactly(db: Db, id: nat, ws: seq<HalfWrite>)
    requires StayInv(db) && id < |db.reservations| && db.reservations[id].status == PaymentPending && db.reservations[id].holdExpiresAt.Some?
    ensures var t, end := db.reservations[id].holdExpiresAt.value, WriteHalves(db, id, ws);
            HoldRowsMatch(end.reservations, end.holds, id) <==> LastStay(ws, t) == LastRows(ws, t)
  {
    var t := db.reservations[id].holdExpiresAt.value;
    var stay, rows := LastStay(ws, t), LastRows(ws, t);
    RowsOfPending(db, id);
    LastHalvesCount(db, id, ws, t);
    ExpectedRows(db, id, stay, rows);
  }

  /** The rows a booking should have, with another expiry than its own, are not what it should have. */
  lemma ExpectedRows(db: Db, id: nat, stay: Time, rows: Time)
    requires StayInv(db) && id < |db.reservations| && db.reservations[id].status == PaymentPending && db.reservations[id].holdExpiresAt.Some?
    ensures HoldsOf(RestampHolds(db.holds, id, rows), id) == ExpectedHolds(id, db.reservations[id].(holdExpiresAt := Some(stay)))
            <==> stay == rows
  {
    assert RowOk(db.inventory, db.reservations, id) && HoldRowsMatch(db.reservations, db.holds, id);
    var item, t := db.reservations[id].items[0], db.reservations[id].holdExpiresAt.value;
    HoldsOfRestamp(db.holds, id, rows, id);
    RestampBuilt(id, item, t, rows);
    assert BuildHoldRows(id, item, rows)[0].expiresAt == rows && BuildHoldRows(id, item, stay)[0].expiresAt == stay;
  }

  // ---- rows that lapse before their booking

  /** Every hold row of the booking has lapsed. */
  predicate RowsLapsed(db: Db, id: nat) {
    forall i | 0 <= i < |HoldsOf(db.holds, id)| :: HoldsOf(db.holds, id)[i].expiresAt <= db.now
  }

  lemma {:induction false} LapsedRowsHoldNothing(holds: seq<Hold>, rs: seq<Reservation>, rs': seq<Reservation>, id: nat, slot: Slot, now: Time)
    requires forall i | 0 <= i < |HoldsOf(holds, id)| :: HoldsOf(holds, id)[i].expiresAt <= now
    requires |rs'| == |rs| && forall k | 0 <= k < |rs| && k != id :: rs'[k] == rs[k]
    ensures ActiveHoldQuantity(ReleaseHolds(holds, id), rs', slot, now) == ActiveHoldQuantity(holds, rs, slot, now)
  {
    if |holds| > 0 {
      var front, last := holds[..|holds| - 1], holds[|holds| - 1];
      var before, kept := HoldsOf(front, id), ReleaseHolds(holds, id);
      assert forall i | 0 <= i < |before| :: before[i] == HoldsOf(holds, id)[i];
      LapsedRowsHoldNothing(front, rs, rs', id, slot, now);
      if last.reservation == id {
        assert HoldsOf(holds, id) == before + [last];
        assert HoldsOf(holds, id)[|before|].expiresAt <= now;
        assert kept == ReleaseHolds(front, id);
      } else {
        assert kept == ReleaseHolds(front, id) + [last] && kept[..|kept| - 1] == ReleaseHolds(front, id);
        assert ActiveHold(last, rs', slot, now) <==> ActiveHold(last, rs, slot, now);
      }
    }
  }

  /**
   * When the halves crossed so that the rows lapse first, the booking still converts on time and unchecked, though
   * its rooms have been offered to others: it keeps every night within its rooms exactly when they are still free.
   */
  lemma LapsedRowsOversellExactly(db: Db, id: nat)
    requires id < |db.reservations| && db.reservations[id].status == PaymentPending && RowsLapsed(db, id)
    ensures NoOversell(Confirm(ConvertHoldsToSold(db, id), id))
            <==> forall slot | slot in db.inventory :: FreeRooms(db, slot, db.now) >= RowQuantity(HoldsOf(db.holds, id), slot)
  {
    var end := Confirm(ConvertHoldsToSold(db, id), id);
    assert end.inventory.Keys == db.inventory.Keys && end.now == db.now;
    forall slot | slot in db.inventory
      ensures FreeRooms(end, slot, db.now) == FreeRooms(db, slot, db.now) - RowQuantity(HoldsOf(db.holds, id), slot)
    {
      LapsedRowsHoldNothing(db.holds, db.reservations, end.reservations, id, slot, db.now);
    }
  }

  lemma LastOfFour(first: Time, second: Time, t: Time)
    ensures var ws := [OnStay(first), OnStay(second), OnRows(second), OnRows(first)]; LastStay(ws, t) == second && LastRows(ws, t) == first
  {
    var ws := [OnStay(first), OnStay(second), OnRows(second), OnRows(first)];
    assert ws[..3] == [OnStay(first), OnStay(second), OnRows(second)];
    assert ws[..3][..2] == [OnStay(first), OnStay(second)];
    assert LastStay(ws, t) == LastStay(ws[..3], t) == LastStay(ws[..3][..2], t) == second;
  }

  /** What an extension that reads now would write. */
  function Proposal(db: Db, id: nat): Time
    requires id < |db.reservations| && db.reservations[id].holdExpiresAt.Some?
  {
    Min(db.reservations[id].holdExpiresAt.value + HOLD_EXTEND_BY_MS, db.reservations[id].createdAt + MAX_HOLD_MS)
  }

  /**
   * A second extension reads what the first has written to the reservation, and writes both its halves before the
   * first has come to its rows: between the two expiries the hold is live and holds nothing.
   */
  lemma CrossedExtensionsLapse(db: Db, id: nat, later: Time)
    requires StayInv(db) && id < |db.reservations| && db.reservations[id].status == PaymentPending && db.reservations[id].holdExpiresAt.Some?
    requires Proposal(db, id) < db.reservations[id].createdAt + MAX_HOLD_MS
    requires var first := Proposal(db, id);
             first <= later < Proposal(WriteHalf(db, id, OnStay(first)), id)
    ensures var first := Proposal(db, id);
            var second := Proposal(WriteHalf(db, id, OnStay(first)), id);
            var end := WriteHalves(db, id, [OnStay(first), OnStay(second), OnRows(second), OnRows(first)]).(now := later);
            OnTime(end, id) && RowsLapsed(end, id)
  {
    var first := Proposal(db, id);
    var second := Proposal(WriteHalf(db, id, OnStay(first)), id);
    var t := db.reservations[id].holdExpiresAt.value;
    RowsOfPending(db, id);
    LastHalvesCount(db, id, [OnStay(first), OnStay(second), OnRows(second), OnRows(first)], t);
    LastOfFour(first, second, t);
    EarlyRowsLapse(db, id, second, first, later);
  }

  lemma EarlyRowsLapse(db: Db, id: nat, stay: Time, rows: Time, later: Time)
    requires id < |db.reservations| && db.reservations[id].status == PaymentPending && |HoldsOf(db.holds, id)| > 0
    requires rows <= later < stay
    ensures var end := db.(reservations := db.reservations[id := db.reservations[id].(holdExpiresAt := Some(stay))],
                           holds := RestampHolds(db.holds, id, rows), now := later);
            OnTime(end, id) && RowsLapsed(end, id)
  {
    HoldsOfRestamp(db.holds, id, rows, id);
    RestampPointwise(HoldsOf(db.holds, id), id, rows);
    OwnRows(db.holds, id);
  }

  lemma {:induction false} OwnRows(holds: seq<Hold>, id: nat)
    ensures forall i | 0 <= i < |HoldsOf(holds, id)| :: HoldsOf(holds, id)[i].reservation == id
  {
    if |holds| > 0 {
      OwnRows(holds[..|holds| - 1], id);
    }
  }
}
