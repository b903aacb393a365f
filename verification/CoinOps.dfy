/** AlterCashService: the coin account, changed in place. */
module CoinOps {
  import opened Basics
  import opened Lifecycle
  import opened Tables
  import opened Coins
  import opened Transactions
  import opened Storage

  datatype Reply<+T> = Done(value: T) | Thrown(error: TxError)

  class AlterCashService {
    const db: Database

    constructor (db: Database)
      ensures this.db == db
    {
      this.db := db;
    }

    /** Updates the balance, then appends the ledger row, as every coin write does. */
    method Write(user: UserId, kind: CoinEntryType, amount: int, reservation: Option<nat>)
      requires user in db.balances
      modifies db`balances, db`ledger
      ensures db.Snapshot() == Post(old(db.Snapshot()), user, kind, amount, reservation)
    {
      var balanceAfter := db.balances[user] + amount;
      db.balances := db.balances[user := balanceAfter];
      db.ledger := db.ledger + [CoinEntry(user, kind, amount, balanceAfter, reservation)];
    }

    /** Runs inside the booking transaction; a failure leaves the rows to its rollback. */
    method RedeemForBooking(user: UserId, reservation: nat, amount: int) returns (r: Reply<()>)
      modifies db`balances, db`ledger
      ensures r.Done? <==> Coins.RedeemForBooking(old(db.Snapshot()), user, reservation, amount).Some?
      ensures r.Done? ==> db.Snapshot() == Coins.RedeemForBooking(old(db.Snapshot()), user, reservation, amount).value
      ensures r.Thrown? ==> db.Snapshot() == old(db.Snapshot())
      ensures r.Thrown? ==> r.error == if user in db.balances then BadRequest else NotFound
    {
      if amount <= 0 { return Done(()); }
      if user !in db.balances { return Thrown(NotFound); }
      if amount > db.balances[user] { return Thrown(BadRequest); }
      Write(user, Redeem, -amount, Some(reservation));
      return Done(());
    }

    method RefundRedemption(reservation: nat)
      modifies db`balances, db`ledger
      ensures db.Snapshot() == Coins.RefundRedemption(old(db.Snapshot()), reservation)
    {
      if reservation >= |db.reservations| { return; }
      var r := db.reservations[reservation];
      if r.coinsRedeemed <= 0 { return; }
      if HasEntry(db.ledger, reservation, RedeemRefund) { return; }
      if r.user !in db.balances { return; }
      Write(r.user, RedeemRefund, r.coinsRedeemed, Some(reservation));
    }

    method CreditEarnOnComplete(reservation: nat) returns (credited: bool)
      modifies db`reservations, db`balances, db`ledger
      ensures (db.Snapshot(), credited) == Coins.CreditEarnOnComplete(old(db.Snapshot()), reservation)
    {
      if reservation >= |db.reservations| { return false; }
      var r := db.reservations[reservation];
      if r.status != Completed || r.coinsEarnedAt.Some? { return false; }
      if r.coinsEarnable <= 0 {
        db.reservations := db.reservations[reservation := r.(coinsEarnedAt := Some(db.now))];
        return false;
      }
      if HasEntry(db.ledger, reservation, Earn) { return false; }
      if r.user !in db.balances { return false; }
      Write(r.user, Earn, r.coinsEarnable, Some(reservation));
      db.reservations := db.reservations[reservation := r.(coinsEarnedAt := Some(db.now))];
      return true;
    }

    method AdjustBalance(user: UserId, amount: int) returns (r: Reply<int>)
      modifies db`balances, db`ledger
      ensures r.Done? <==> Coins.AdjustBalance(old(db.Snapshot()), user, amount).Some?
      ensures r.Done? ==> db.Snapshot() == Coins.AdjustBalance(old(db.Snapshot()), user, amount).value
                          && user in db.balances && r.value == db.balances[user] >= 0
      ensures r.Thrown? ==> db.Snapshot() == old(db.Snapshot())
    {
      if amount == 0 { return Thrown(BadRequest); }
      if user !in db.balances { return Thrown(NotFound); }
      var balanceAfter := db.balances[user] + amount;
      if balanceAfter < 0 { return Thrown(BadRequest); }
      Write(user, Adjust, amount, None);
      return Done(balanceAfter);
    }
  }
}
