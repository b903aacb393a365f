/**
 * AdminBookingsService: cancellation, acceptance, refunds and no-shows, changed in place. Each method reads
 * the booking first; `later` are the tables its transaction finds when it comes to write.
 */
module AdminOps {
  import opened Basics
  import opened Lifecycle
  import opened Tables
  import opened Inventory
  import opened Transactions
  import opened Storage
  import opened InventoryOps
  import opened CoinOps
  import opened BookingOps
  import opened StaleWrites

  class AdminBookingsService {
    const cfg: Config
    const db: Database
    const inventory: BookingInventoryService
    const alterCash: AlterCashService
    const bookings: BookingsService

    constructor (cfg: Config, db: Database)
      ensures this.cfg == cfg && this.db == db && Wired()
    {
      this.cfg, this.db := cfg, db;
      inventory := new BookingInventoryService(db);
      alterCash := new AlterCashService(db);
      bookings := new BookingsService(cfg, db);
    }

    ghost predicate Wired() {
      inventory.db == db && alterCash.db == db && bookings.db == db && bookings.cfg == cfg && bookings.Wired()
    }

    method Accept(id: nat, later: Db) returns (r: Reply<()>)
      requires Wired() && RowsLast(db.Snapshot(), later)
      modifies db
      ensures var read := ReadFor(old(db.Snapshot()), Step.Accept(id));
              if read.Some? then r == Done(()) && db.Snapshot() == WriteBack(later, read.value)
              else AdminAccept(old(db.Snapshot()), id) == RolledBack(if r.Thrown? then r.error else NotFound)
                   && r.Thrown? && db.Snapshot() == old(db.Snapshot())
      ensures db.quotes == old(db.quotes) && db.claims == old(db.claims) && db.events == old(db.events)
    {
      if id >= |db.reservations| { return Thrown(NotFound); }
      if db.reservations[id].status != PaymentPending { return Thrown(BadRequest); }

      db.Restore(later);
      var _ := inventory.ConvertHoldsToSold(id);
      db.reservations := db.reservations[id := db.reservations[id].(status := Confirmed, confirmedAt := Some(db.now), holdExpiresAt := None)];
      db.history := Record(db.history, id, PaymentPending, Confirmed);
      assert db.Snapshot() == WriteBack(later, ToAccept(id));
      return Done(());
    }

    /** Gives the rooms of each item back to the counters of its nights. */
    method RestoreSoldRooms(items: seq<Item>)
      modifies db`inventory
      ensures db.inventory == RestoreItems(old(db.inventory), items)
      ensures (forall i | 0 <= i < |items| :: items[i].quantity >= 0)
              && (forall slot | slot in old(db.inventory) :: old(db.inventory)[slot].soldRooms >= Demand(items, slot)) ==>
                db.inventory.Keys == old(db.inventory).Keys
                && forall slot | slot in old(db.inventory) ::
                     db.inventory[slot] == old(db.inventory)[slot].(soldRooms := old(db.inventory)[slot].soldRooms - Demand(items, slot))
    {
      for k := 0 to |items|
        invariant db.inventory == RestoreItems(old(db.inventory), items[..k])
      {
        var item := items[k];
        var nights := CollectNights(item.checkIn, item.checkOut);
        assert items[..k + 1][..k] == items[..k];
        ghost var before := db.inventory;
        if |nights| == 0 {
          assert forall slot :: !Covers(item, slot);
          assert RestoreRooms(before, item) == before;
          continue;
        }
        db.inventory := map slot | slot in db.inventory ::
          if slot.roomType == item.roomType && slot.night in nights
          then db.inventory[slot].(soldRooms := Max(db.inventory[slot].soldRooms - item.quantity, 0))
          else db.inventory[slot];
        assert db.inventory == RestoreRooms(before, item);
      }
      assert items[..|items|] == items;
      if (forall i | 0 <= i < |items| :: items[i].quantity >= 0)
         && (forall slot | slot in old(db.inventory) :: old(db.inventory)[slot].soldRooms >= Demand(items, slot)) {
        RestoreItemsTakesDemand(old(db.inventory), items);
      }
    }

    /** Flags the payments that were read as holding the guest's money, one update at a time. */
    method FlagPayments(holding: set<nat>)
      modifies db`payments
      ensures db.payments == FlagRows(old(db.payments), holding)
    {
      var rows := db.payments;
      for k := 0 to |rows|
        invariant |db.payments| == |rows|
        invariant forall i | 0 <= i < k :: db.payments[i] == FlagRows(rows, holding)[i]
        invariant forall i | k <= i < |rows| :: db.payments[i] == rows[i]
      {
        if k in holding {
          db.payments := db.payments[k := rows[k].(refundRequired := true)];
        }
      }
    }

    /** The stay lets go of the rooms it was read to have, held or sold, and is CANCELLED. */
    method ReleaseStay(id: nat, status: ReservationStatus, items: seq<Item>)
      requires Wired() && id < |db.reservations|
      modifies db`reservations, db`inventory, db`holds
      ensures db.holds == if status == PaymentPending then ReleaseHolds(old(db.holds), id) else old(db.holds)
      ensures db.inventory == if status == Confirmed then RestoreItems(old(db.inventory), items) else old(db.inventory)
      ensures db.reservations == old(db.reservations)[id := old(db.reservations)[id].(status := Cancelled, holdExpiresAt := None)]
    {
      if status == PaymentPending {
        var _ := inventory.ReleaseHolds(id);
      }
      if status == Confirmed {
        RestoreSoldRooms(items);
      }
      db.reservations := db.reservations[id := db.reservations[id].(status := Cancelled, holdExpiresAt := None)];
    }

    method Cancel(id: nat, initiateRefund: bool, later: Db) returns (r: Reply<()>)
      requires Wired() && RowsLast(db.Snapshot(), later)
      modifies db
      ensures var read := ReadFor(old(db.Snapshot()), Step.Cancel(id, initiateRefund));
              if read.Some? then r == Done(()) && db.Snapshot() == WriteBack(later, read.value)
              else AdminCancel(old(db.Snapshot()), id, initiateRefund) == RolledBack(if r.Thrown? then r.error else NotFound)
                   && r.Thrown? && db.Snapshot() == old(db.Snapshot())
      ensures db.quotes == old(db.quotes) && db.claims == old(db.claims) && db.events == old(db.events)
    {
      if id >= |db.reservations| { return Thrown(NotFound); }
      var reservation := db.reservations[id];
      if !CanTransition(reservation.status, Cancelled) { return Thrown(Conflict); }
      var holding := if initiateRefund then HoldingMoney(db.payments, id) else {};

      db.Restore(later);
      WriteCancellation(id, reservation.status, reservation.items, holding);
      return Done(());
    }

    method WriteCancellation(id: nat, status: ReservationStatus, items: seq<Item>, holding: set<nat>)
      requires Wired() && id < |db.reservations|
      modifies db
      ensures db.Snapshot() == WriteBack(old(db.Snapshot()), ToCancel(id, status, items, holding, None))
      ensures db.quotes == old(db.quotes) && db.claims == old(db.claims) && db.events == old(db.events)
    {
      ReleaseStay(id, status, items);
      alterCash.RefundRedemption(id);
      FlagPayments(holding);
      db.history := Record(db.history, id, status, Cancelled);
    }

    /** What may be refunded, judged by the rows as they are read. */
    method ReadRefund(id: nat, payment: nat, requested: Option<int>) returns (r: Reply<Reading>)
      ensures var read := ReadFor(db.Snapshot(), Step.RefundPayment(id, payment, requested));
              if read.Some? then r == Done(read.value)
              else r.Thrown? && AdminRefund(db.Snapshot(), id, payment, requested) == RolledBack(if r.Thrown? then r.error else NotFound)
    {
      if id >= |db.reservations| { return Thrown(NotFound); }
      if payment >= |db.payments| || db.payments[payment].reservation != id { return Thrown(NotFound); }
      var row := db.payments[payment];
      if row.status != Captured && row.status != PartiallyRefunded { return Thrown(BadRequest); }
      var alreadyRefunded := TotalRefunded(payment);
      var remaining := row.amount - alreadyRefunded;
      if remaining <= 0 { return Thrown(BadRequest); }
      var refundAmount := if requested.Some? then requested.value else remaining;
      if refundAmount <= 0 || refundAmount > remaining { return Thrown(BadRequest); }
      return Done(ToRefund(id, db.reservations[id].status, payment, refundAmount, refundAmount >= remaining));
    }

    method WriteRefund(w: Reading)
      requires w.ToRefund? && Addressed(db.Snapshot(), w)
      modifies db`refunds, db`payments, db`history
      ensures db.Snapshot() == WriteBack(old(db.Snapshot()), w)
    {
      db.refunds := db.refunds + [Refund(w.payment, w.amount)];
      db.payments := db.payments[w.payment := db.payments[w.payment].(status := if w.full then Refunded else PartiallyRefunded,
                                                                      refundRequired := !w.full)];
      db.history := Record(db.history, w.id, w.status, w.status);
    }

    method RefundPayment(id: nat, payment: nat, requested: Option<int>, later: Db) returns (r: Reply<int>)
      requires RowsLast(db.Snapshot(), later)
      modifies db
      ensures var read := ReadFor(old(db.Snapshot()), Step.RefundPayment(id, payment, requested));
              if read.Some? then r == Done(read.value.amount) && db.Snapshot() == WriteBack(later, read.value)
              else AdminRefund(old(db.Snapshot()), id, payment, requested) == RolledBack(if r.Thrown? then r.error else NotFound)
                   && r.Thrown? && db.Snapshot() == old(db.Snapshot())
      ensures db.quotes == old(db.quotes) && db.claims == old(db.claims) && db.events == old(db.events)
    {
      var read := ReadRefund(id, payment, requested);
      if read.Thrown? { return Thrown(read.error); }

      db.Restore(later);
      WriteRefund(read.value);
      return Done(read.value.amount);
    }

    method TotalRefunded(payment: nat) returns (sum: int)
      ensures sum == RefundedSum(db.refunds, payment)
    {
      sum := 0;
      for k := 0 to |db.refunds|
        invariant sum == RefundedSum(db.refunds[..k], payment)
      {
        if db.refunds[k].payment == payment {
          sum := sum + db.refunds[k].amount;
        }
        assert db.refunds[..k + 1][..k] == db.refunds[..k];
      }
      assert db.refunds[..|db.refunds|] == db.refunds;
    }

    method MarkNoShow(id: nat, later: Db) returns (r: Reply<()>)
      requires RowsLast(db.Snapshot(), later)
      modifies db
      ensures var read := ReadFor(old(db.Snapshot()), Step.MarkNoShow(id));
              if read.Some? then r == Done(()) && db.Snapshot() == WriteBack(later, read.value)
              else AdminNoShow(old(db.Snapshot()), id) == RolledBack(if r.Thrown? then r.error else NotFound)
                   && r.Thrown? && db.Snapshot() == old(db.Snapshot())
      ensures db.quotes == old(db.quotes) && db.claims == old(db.claims) && db.events == old(db.events)
    {
      if id >= |db.reservations| { return Thrown(NotFound); }
      if !CanTransition(db.reservations[id].status, NoShow) { return Thrown(Conflict); }

      db.Restore(later);
      db.reservations := db.reservations[id := db.reservations[id].(status := NoShow)];
      db.history := Record(db.history, id, Confirmed, NoShow);
      return Done(());
    }

    method Complete(id: nat) returns (r: Reply<()>)
      requires Wired()
      modifies db`reservations, db`balances, db`ledger, db`history
      ensures r.Done? <==> id < |old(db.reservations)| && old(db.reservations)[id].status == Confirmed
      ensures db.Snapshot() == if r.Done? then CompleteAndCredit(old(db.Snapshot()), id) else old(db.Snapshot())
    {
      if id >= |db.reservations| { return Thrown(NotFound); }
      var completed := bookings.CompleteStay(id);
      return if completed then Done(()) else Thrown(BadRequest);
    }
  }
}
