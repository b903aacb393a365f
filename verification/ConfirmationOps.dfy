/** PaymentConfirmationService: what a delivered payment event does to booking, payment and rooms, in place. */
module ConfirmationOps {
  import opened Basics
  import opened Lifecycle
  import opened Tables
  import opened Inventory
  import opened Transactions
  import opened Storage
  import opened InventoryOps

  /** The HTTP status and the duplicate flag of an answer. */
  function HttpStatus(reply: Webhook.Reply): int {
    match reply
    case TryLater => 409
    case Fresh(answer) => StatusOf(answer)
    case Duplicate(answer) => StatusOf(answer)
  }

  function StatusOf(answer: Outcome): int {
    match answer
    case Accepted(_, _) => 200
    case RefundDue(_, _) => 202
    case Rejected(_) => 422
  }

  lemma ItemsAvailableIsFits(db: Db, items: seq<Item>)
    ensures ItemsAvailable(db, items) <==> forall i | 0 <= i < |items| :: Fits(db, items[i], db.now)
  {
    forall i | 0 <= i < |items|
      ensures Fits(db, items[i], db.now)
              <==> CheckAvailability(db, items[i].roomType, EachNight(items[i].checkIn, items[i].checkOut), items[i].quantity, db.now).Available?
    {
      AvailableIsFits(db, items[i], db.now);
    }
  }

  class PaymentConfirmationService {
    const db: Database
    const inventory: BookingInventoryService

    constructor (db: Database)
      ensures this.db == db && Wired()
    {
      this.db := db;
      inventory := new BookingInventoryService(db);
    }

    ghost predicate Wired() { inventory.db == db }

    // ---- one event

    /** Inserts the event row, or lets the existing one answer. */
    method Claim(eventId: nat) returns (r: Webhook.ClaimResult)
      modifies db`events
      ensures r == Webhook.ClaimEvent(old(db.events), eventId, db.now)
      ensures db.events == Webhook.ClaimedEvents(old(db.events), eventId, db.now)
      ensures r.Claimed? ==> eventId in db.events && db.events[eventId].answer.None?
    {
      if eventId !in db.events {
        db.events := db.events[eventId := Webhook.EventRow(db.now, None)];
        return Webhook.Claimed;
      }
      var existing := db.events[eventId];
      if existing.answer.Some? { return Webhook.Replay(existing.answer.value); }
      var stalled := existing.receivedAt + Webhook.CLAIM_TAKEOVER_MS <= db.now;
      return if stalled then Webhook.Claimed else Webhook.InFlight;
    }

    /** The answer is stored in the transaction that makes the change it describes. */
    method Process(n: Notification) returns (outcome: Outcome)
      requires Wired() && n.eventId in db.events
      modifies db
      ensures (db.Snapshot(), outcome) == ProcessNotification(old(db.Snapshot()), n)
      ensures db.events == old(db.events)[n.eventId := old(db.events)[n.eventId].(answer := Some(outcome))]
      ensures db.claims == old(db.claims)
    {
      if n.reservation < |db.reservations| {
        outcome := Decide(n);
      } else {
        outcome := Rejected(UnknownReservation);
      }
      db.events := db.events[n.eventId := db.events[n.eventId].(answer := Some(outcome))];
    }

    /**
     * An event that has its answer is replayed and changes no row; one that is being processed changes
     * none either; any other is processed once and its answer kept for the next delivery.
     */
    method HandleNotification(n: Notification) returns (reply: Webhook.Reply)
      requires Wired()
      modifies db
      ensures db.claims == old(db.claims)
      ensures match Webhook.ClaimEvent(old(db.events), n.eventId, old(db.now))
              case Replay(answer) =>
                reply == Webhook.Duplicate(answer) && db.Snapshot() == old(db.Snapshot()) && db.events == old(db.events)
              case InFlight =>
                reply == Webhook.TryLater && db.Snapshot() == old(db.Snapshot()) && db.events == old(db.events)
              case Claimed =>
                && db.Snapshot() == ProcessNotification(old(db.Snapshot()), n).0
                && reply == Webhook.Fresh(ProcessNotification(old(db.Snapshot()), n).1)
                && Webhook.ClaimEvent(db.events, n.eventId, db.now) == Webhook.Replay(ProcessNotification(old(db.Snapshot()), n).1)
      ensures HttpStatus(reply) == 409 <==> reply == Webhook.TryLater
      ensures HttpStatus(reply) == 200 <==> !reply.TryLater? && reply.answer.Accepted?
      ensures HttpStatus(reply) == 202 <==> !reply.TryLater? && reply.answer.RefundDue?
      ensures HttpStatus(reply) == 422 <==> !reply.TryLater? && reply.answer.Rejected?
    {
      var claim := Claim(n.eventId);
      match claim
      case Replay(answer) => return Webhook.Duplicate(answer);
      case InFlight => return Webhook.TryLater;
      case Claimed =>
        var outcome := Process(n);
        return Webhook.Fresh(outcome);
    }

    // ---- the decision

    method Decide(n: Notification) returns (outcome: Outcome)
      requires Wired() && n.reservation < |db.reservations|
      modifies db`reservations, db`payments, db`inventory, db`holds, db`history
      ensures (db.Snapshot(), outcome) == ProcessNotification(old(db.Snapshot()), n)
    {
      if n.payment >= |db.payments| || db.payments[n.payment].reservation != n.reservation {
        return Rejected(PaymentNotOfReservation);
      }
      var payment := db.payments[n.payment];
      if n.amount != payment.amount || n.currency != payment.currency { return Rejected(AmountMismatch); }
      if n.succeeded {
        outcome := ApplySuccess(n.reservation, n.payment);
      } else {
        outcome := ApplyFailure(n.reservation, n.payment);
      }
    }

    method ApplyFailure(id: nat, payment: nat) returns (outcome: Outcome)
      requires id < |db.reservations| && payment < |db.payments|
      modifies db`payments
      ensures (db.Snapshot(), outcome) == Transactions.ApplyFailure(old(db.Snapshot()), id, payment)
    {
      if db.payments[payment].status == Captured { return Accepted(db.reservations[id].status, Captured); }
      db.payments := db.payments[payment := db.payments[payment].(status := Failed)];
      return Accepted(db.reservations[id].status, Failed);
    }

    method ApplySuccess(id: nat, payment: nat) returns (outcome: Outcome)
      requires Wired() && id < |db.reservations| && payment < |db.payments|
      modifies db`reservations, db`payments, db`inventory, db`holds, db`history
      ensures (db.Snapshot(), outcome) == Transactions.ApplySuccess(old(db.Snapshot()), id, payment)
    {
      var status, paid := db.reservations[id].status, db.payments[payment].status;
      if status == Confirmed {
        if paid == Captured { return Accepted(Confirmed, Captured); }
        outcome := CaptureForRefund(id, payment, DuplicatePayment);
        return;
      }
      if status != PaymentPending && status != Expired { return Rejected(NotConfirmable); }
      if paid == Failed {
        outcome := CaptureForRefund(id, payment, LateSuccessOnFailedAttempt);
        return;
      }
      var holds := |HoldsOf(db.holds, id)|;
      var onTime := status == PaymentPending && HoldLive(db.reservations[id], db.now) && holds > 0;
      if onTime {
        outcome := ConfirmFromHolds(id, payment);
      } else {
        outcome := ConfirmFromItems(id, payment);
      }
    }

    // ---- confirming

    method ConfirmFromHolds(id: nat, payment: nat) returns (outcome: Outcome)
      requires Wired() && id < |db.reservations| && payment < |db.payments|
      requires CanTransition(db.reservations[id].status, Confirmed)
      modifies db`reservations, db`payments, db`inventory, db`holds, db`history
      ensures db.Snapshot() == Transactions.MarkConfirmed(ConvertHoldsToSold(old(db.Snapshot()), id), id, payment)
      ensures outcome == Accepted(Confirmed, Captured)
    {
      var _ := inventory.ConvertHoldsToSold(id);
      MarkConfirmed(id, payment);
      return Accepted(Confirmed, Captured);
    }

    /** Checks every item before selling any, then sells them one by one. */
    method ConfirmFromItems(id: nat, payment: nat) returns (outcome: Outcome)
      requires Wired() && id < |db.reservations| && payment < |db.payments|
      requires CanTransition(db.reservations[id].status, Confirmed)
      modifies db`reservations, db`payments, db`inventory, db`holds, db`history
      ensures (db.Snapshot(), outcome) == Transactions.ConfirmFromItems(old(db.Snapshot()), id, payment)
    {
      var items := db.reservations[id].items;
      if |items| == 0 { return Rejected(NoItems); }
      var free := AllItemsAvailable(items);
      if !free {
        outcome := CaptureForRefund(id, payment, NoInventoryAtConfirmation);
        return;
      }
      SellAll(items);
      var _ := inventory.ReleaseHolds(id);
      MarkConfirmed(id, payment);
      return Accepted(Confirmed, Captured);
    }

    method AllItemsAvailable(items: seq<Item>) returns (free: bool)
      requires Wired()
      ensures free <==> ItemsAvailable(db.Snapshot(), items)
      ensures free <==> forall i | 0 <= i < |items| :: Fits(db.Snapshot(), items[i], db.now)
    {
      ghost var tables := db.Snapshot();
      for k := 0 to |items|
        invariant forall i | 0 <= i < k :: Fits(tables, items[i], db.now)
      {
        var fits := ItemAvailable(items[k]);
        if !fits {
          ItemsAvailableIsFits(tables, items);
          return false;
        }
      }
      ItemsAvailableIsFits(tables, items);
      return true;
    }

    /** The nights of one item are locked and loaded; none is missing and none is short. */
    method ItemAvailable(item: Item) returns (fits: bool)
      requires Wired()
      ensures fits <==> Fits(db.Snapshot(), item, db.now)
    {
      var nights := CollectNights(item.checkIn, item.checkOut);
      var loaded, missing, _ := inventory.LockAndLoadAvailability(item.roomType, nights, db.now);
      ShortOfLoaded(db.Snapshot(), item.roomType, nights, item.quantity, db.now);
      AvailableIsFits(db.Snapshot(), item, db.now);
      var short := |missing| > 0 || |ShortOf(loaded, item.quantity)| > 0;
      return !short;
    }

    method SellOne(item: Item)
      requires Wired()
      modifies db`inventory
      ensures db.inventory == SellRooms(old(db.inventory), item)
    {
      var nights := CollectNights(item.checkIn, item.checkOut);
      var _ := inventory.SellRooms(item.roomType, nights, item.quantity);
    }

    method SellAll(items: seq<Item>)
      requires Wired()
      modifies db`inventory
      ensures db.inventory == SellItems(old(db.inventory), items)
      ensures db.inventory.Keys == old(db.inventory.Keys)
      ensures forall slot | slot in db.inventory ::
                db.inventory[slot].soldRooms == old(db.inventory[slot].soldRooms) + Demand(items, slot)
    {
      for k := 0 to |items|
        invariant db.inventory == SellItems(old(db.inventory), items[..k])
      {
        assert items[..k + 1][..k] == items[..k];
        SellOne(items[k]);
      }
      assert items[..|items|] == items;
      SellItemsAddsDemand(old(db.inventory), items);
    }

    method MarkConfirmed(id: nat, payment: nat)
      requires id < |db.reservations| && payment < |db.payments|
      requires CanTransition(db.reservations[id].status, Confirmed)
      modifies db`reservations, db`payments, db`history
      ensures db.Snapshot() == Transactions.MarkConfirmed(old(db.Snapshot()), id, payment)
    {
      var r := db.reservations[id];
      db.reservations := db.reservations[id := r.(status := Confirmed, confirmedAt := Some(db.now), holdExpiresAt := None)];
      db.payments := db.payments[payment := db.payments[payment].(status := Captured)];
      db.history := Record(db.history, id, r.status, Confirmed);
    }

    method CaptureForRefund(id: nat, payment: nat, reason: RefundReason) returns (outcome: Outcome)
      requires id < |db.reservations| && payment < |db.payments|
      modifies db`payments
      ensures db.Snapshot() == Transactions.CaptureForRefund(old(db.Snapshot()), payment)
      ensures outcome == RefundDue(db.reservations[id].status, reason)
    {
      db.payments := db.payments[payment := db.payments[payment].(status := Captured, refundRequired := true)];
      return RefundDue(db.reservations[id].status, reason);
    }
  }
}
