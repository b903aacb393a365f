/** The shared database the services change in place. */
module Storage {
  import opened Lifecycle
  import opened Tables
  import Idempotency
  import Webhook

  class Database {
    var now: Time
    var inventory: map<Slot, InventoryRow>
    var reservations: seq<Reservation>
    var holds: seq<Hold>
    var payments: seq<Payment>
    var refunds: seq<Refund>
    var balances: map<UserId, int>
    var ledger: seq<CoinEntry>
    var history: seq<HistoryEntry>
    var quotes: seq<Idempotency.Quote>
    var claims: Idempotency.ClaimTable
    var events: map<nat, Webhook.EventRow>

    /** The booking, payment and coin tables as one value. */
    function Snapshot(): Db
      reads this
    {
      Db(now, inventory, reservations, holds, payments, refunds, balances, ledger, history)
    }

    /** An opened hotel without bookings. */
    constructor (start: Time, rooms: map<Slot, InventoryRow>, users: set<UserId>)
      ensures Snapshot() == Db(start, rooms, [], [], [], [], map u | u in users :: 0, [], [])
      ensures quotes == [] && claims == Idempotency.ClaimTable(map[], 0) && events == map[]
    {
      now, inventory, reservations, holds, payments, refunds := start, rooms, [], [], [], [];
      balances, ledger, history := map u | u in users :: 0, [], [];
      quotes, claims, events := [], Idempotency.ClaimTable(map[], 0), map[];
    }

    /** Rollback of a transaction, or what other transactions left behind while this one was away. */
    method Restore(saved: Db)
      modifies `now, `inventory, `reservations, `holds, `payments, `refunds, `balances, `ledger, `history
      ensures Snapshot() == saved
    {
      now, inventory, reservations, holds := saved.now, saved.inventory, saved.reservations, saved.holds;
      payments, refunds := saved.payments, saved.refunds;
      balances, ledger, history := saved.balances, saved.ledger, saved.history;
    }
  }
}
