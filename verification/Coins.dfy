/** The coin account transactions of alter-cash.service.ts. */
module Coins {
  import opened Basics
  import opened Lifecycle
  import opened Tables

  /** Moves a balance and appends the ledger row that records the move. */
  function Post(db: Db, user: UserId, kind: CoinEntryType, amount: int, reservation: Option<nat>): Db
    requires user in db.balances
  {
    var balanceAfter := db.balances[user] + amount;
    db.(balances := db.balances[user := balanceAfter],
        ledger := db.ledger + [CoinEntry(user, kind, amount, balanceAfter, reservation)])
  }

  predicate HasEntry(ledger: seq<CoinEntry>, reservation: nat, kind: CoinEntryType) {
    exists i | 0 <= i < |ledger| :: ledger[i].reservation == Some(reservation) && ledger[i].kind == kind
  }

  datatype Preview = Valid(applied: int) | Invalid

  /** How many coins a guest may put against a room subtotal. */
  function PreviewRedemption(balance: int, roomSubtotal: int, coinsToApply: int): Preview {
    if coinsToApply < 0 then Invalid
    else if coinsToApply == 0 then Valid(0)
    else if coinsToApply > Min(balance, roomSubtotal) then Invalid
    else Valid(coinsToApply)
  }

  /** None is the error that rolls the surrounding transaction back. */
  function RedeemForBooking(db: Db, user: UserId, reservation: nat, amount: int): Option<Db> {
    if amount <= 0 then Some(db)
    else if user !in db.balances then None
    else if amount > db.balances[user] then None
    else Some(Post(db, user, Redeem, -amount, Some(reservation)))
  }

  /** Gives redeemed coins back once; a second call finds the refund row and does nothing. */
  function RefundRedemption(db: Db, reservation: nat): Db {
    if reservation >= |db.reservations| then db
    else
      var r := db.reservations[reservation];
      if r.coinsRedeemed <= 0 then db
      else if HasEntry(db.ledger, reservation, RedeemRefund) then db
      else if r.user !in db.balances then db
      else Post(db, r.user, RedeemRefund, r.coinsRedeemed, Some(reservation))
  }

  /** The new table, and whether coins were credited. */
  function CreditEarnOnComplete(db: Db, reservation: nat): (Db, bool) {
    if reservation >= |db.reservations| then (db, false)
    else
      var r := db.reservations[reservation];
      if r.status != Completed || r.coinsEarnedAt.Some? then (db, false)
      else
        var stamped := db.reservations[reservation := r.(coinsEarnedAt := Some(db.now))];
        if r.coinsEarnable <= 0 then (db.(reservations := stamped), false)
        else if HasEntry(db.ledger, reservation, Earn) then (db, false)
        else if r.user !in db.balances then (db, false)
        else (Post(db, r.user, Earn, r.coinsEarnable, Some(reservation)).(reservations := stamped), true)
  }

  /** None is the error that leaves every row as it was. */
  function AdjustBalance(db: Db, user: UserId, amount: int): Option<Db> {
    if amount == 0 then None
    else if user !in db.balances then None
    else if db.balances[user] + amount < 0 then None
    else Some(Post(db, user, Adjust, amount, None))
  }
}
