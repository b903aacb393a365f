/** Coin postings over a balance that was read earlier and may have moved since. */
module LateCoins {
  import opened Basics
  import opened Tables
  import opened Coins
  import opened Transactions
  import opened Invariants
  import opened PaymentProofs
  import opened CoinProofs
  import opened Runs
  import opened Capacity

  /** A posting that trusts a balance read earlier. */
  function PostOver(db: Db, user: UserId, kind: CoinEntryType, balance: int, amount: int, reservation: Option<nat>): Db {
    db.(balances := db.balances[user := balance + amount],
        ledger := db.ledger + [CoinEntry(user, kind, amount, balance + amount, reservation)])
  }

  /** A posting over an old reading keeps balances and ledger together exactly when nobody has posted since. */
  lemma LatePostKeepsAccountsExactly(db: Db, user: UserId, kind: CoinEntryType, balance: int, amount: int, reservation: Option<nat>)
    requires AccountsOk(db.balances, db.ledger) && user in db.balances && balance + amount >= 0
    ensures var db' := PostOver(db, user, kind, balance, amount, reservation);
            AccountsOk(db'.balances, db'.ledger) <==> db.balances[user] == balance
  {
    if db.balances[user] == balance {
      PostKeepsAccounts(db, user, kind, amount, reservation);
      assert PostOver(db, user, kind, balance, amount, reservation) == Post(db, user, kind, amount, reservation);
    } else {
      LatePostMiscounts(db, user, kind, balance, amount, reservation);
    }
  }

  lemma LatePostMiscounts(db: Db, user: UserId, kind: CoinEntryType, balance: int, amount: int, reservation: Option<nat>)
    requires AccountsOk(db.balances, db.ledger) && user in db.balances && db.balances[user] != balance
    ensures var db' := PostOver(db, user, kind, balance, amount, reservation); db'.balances[user] != UserTotal(db'.ledger, user)
  {
    LedgerSnoc(db.ledger, CoinEntry(user, kind, amount, balance + amount, reservation), user, 0, kind);
  }

  // ---- whole transactions that post

  /** The transactions that read a balance and, later on, post over it; the cancellation's refund is apart. */
  predicate PostsCoins(step: Step) {
    (step.Create? && step.req.coinsRedeemed > 0) || step.Expire? || step.CreditEarn?
  }

  /** The account a transaction reads, if there is one. */
  function AccountOf(db: Db, step: Step): Option<UserId>
    requires PostsCoins(step)
  {
    var user := if step.Create? then Some(step.req.user)
                else if step.id < |db.reservations| then Some(db.reservations[step.id].user)
                else None;
    if user.Some? && user.value in db.balances then user else None
  }

  function Trusting(db: Db, user: UserId, balance: int): Db { db.(balances := db.balances[user := balance]) }

  /** The transaction on the tables as they are, but for the balance, which it takes from its reading. */
  function ApplyOver(cfg: Config, db: Db, step: Step, user: UserId, balance: int): Db {
    var after := Apply(cfg, Trusting(db, user, balance), step);
    if |after.ledger| == |db.ledger| then after.(balances := db.balances) else after
  }

  predicate PostsOver(cfg: Config, db: Db, step: Step, user: UserId, balance: int) {
    |Apply(cfg, Trusting(db, user, balance), step).ledger| != |db.ledger|
  }

  /** The account has moved by what the ledger says, and no other; or nothing was posted. */
  predicate AccountMoves(db: Db, after: Db, user: UserId)
    requires user in db.balances
  {
    || (after.ledger == db.ledger && after.balances == db.balances)
    || (&& |after.ledger| == |db.ledger| + 1 && after.ledger[..|db.ledger|] == db.ledger
        && after.ledger[|db.ledger|].user == user
        && after.balances == db.balances[user := db.balances[user] + after.ledger[|db.ledger|].amount])
  }

  lemma BookingMoves(cfg: Config, db: Db, req: BookingRequest)
    requires req.user in db.balances && req.coinsRedeemed > 0
    ensures AccountMoves(db, Commit(db, CreateBooking(cfg, db, req)), req.user)
    ensures CreateBooking(cfg, db, req).Committed? ==> |CreateBooking(cfg, db, req).db.ledger| == |db.ledger| + 1
  {}

  lemma StepMovesAccount(cfg: Config, db: Db, step: Step, user: UserId)
    requires PostsCoins(step) && AccountOf(db, step) == Some(user)
    ensures AccountMoves(db, Apply(cfg, db, step), user)
  {
    match step
    case Create(req) => BookingMoves(cfg, db, req);
    case _ =>
  }

  /** A transaction that comes to no posting is the plain one, or has failed. */
  lemma QuietPostingIsPlain(cfg: Config, db: Db, step: Step, user: UserId, balance: int)
    requires PostsCoins(step) && AccountOf(db, step) == Some(user) && !PostsOver(cfg, db, step, user, balance)
    ensures ApplyOver(cfg, db, step, user, balance) == (if step.Create? then db else Apply(cfg, db, step))
  {
    match step
    case Create(req) => BookingMoves(cfg, Trusting(db, user, balance), req);
    case _ =>
  }

  /** Over the balance that is there it is the plain one too. */
  lemma FreshPostingIsPlain(cfg: Config, db: Db, step: Step, user: UserId)
    requires PostsCoins(step) && AccountOf(db, step) == Some(user)
    ensures ApplyOver(cfg, db, step, user, db.balances[user]) == Apply(cfg, db, step)
  {
    assert Trusting(db, user, db.balances[user]) == db;
    StepMovesAccount(cfg, db, step, user);
  }

  /** A posting over another balance than the one that is there: the ledger knows better. */
  lemma StaleMoveMiscounts(db: Db, after: Db, user: UserId, balance: int)
    requires AccountsOk(db.balances, db.ledger) && user in db.balances && db.balances[user] != balance
    requires AccountMoves(Trusting(db, user, balance), after, user) && |after.ledger| != |db.ledger|
    ensures !AccountsOk(after.balances, after.ledger)
  {
    var e := after.ledger[|db.ledger|];
    LedgerSnoc(db.ledger, e, user, 0, e.kind);
    assert after.ledger == db.ledger + [e];
  }

  /** A transaction that posts over an old reading keeps the invariants exactly when nobody has posted since. */
  lemma PostingKeepsExactly(cfg: Config, db: Db, step: Step, user: UserId, balance: int)
    requires Inv(db) && PostsCoins(step) && AccountOf(db, step) == Some(user)
    ensures Inv(ApplyOver(cfg, db, step, user, balance))
            <==> !PostsOver(cfg, db, step, user, balance) || db.balances[user] == balance
  {
    StepKeepsInv(cfg, db, step);
    if !PostsOver(cfg, db, step, user, balance) {
      QuietPostingIsPlain(cfg, db, step, user, balance);
    } else if db.balances[user] == balance {
      FreshPostingIsPlain(cfg, db, step, user);
    } else {
      StepMovesAccount(cfg, Trusting(db, user, balance), step, user);
      StaleMoveMiscounts(db, ApplyOver(cfg, db, step, user, balance), user, balance);
    }
  }

  lemma PostingLasts(cfg: Config, db: Db, step: Step, user: UserId, balance: int)
    requires PaymentInv(db) && PostsCoins(step) && AccountOf(db, step) == Some(user)
    ensures var after := ApplyOver(cfg, db, step, user, balance);
            AllTermsKept(db.reservations, after.reservations) && AmountsKept(db.payments, after.payments)
            && db.balances.Keys <= after.balances.Keys
  {
    var trusting := Trusting(db, user, balance);
    StepKeepsTerms(cfg, trusting, step);
    StepKeepsAmounts(cfg, trusting, step);
    StepMovesAccount(cfg, trusting, step, user);
  }

  lemma PostingKeepsRooms(cfg: Config, db: Db, step: Step, user: UserId, balance: int)
    requires StayInv(db) && NoOversell(db) && PostsCoins(step)
    ensures NoOversell(ApplyOver(cfg, db, step, user, balance))
  {
    StepKeepsCapacity(cfg, Trusting(db, user, balance), step);
  }

  // ---- the refund inside a cancellation

  /** A redemption that would be refunded now. */
  predicate RefundOpen(db: Db, id: nat)
    requires id < |db.reservations|
  {
    db.reservations[id].coinsRedeemed > 0 && !HasEntry(db.ledger, id, RedeemRefund)
  }

  /** `RefundRedemption` over a balance read earlier. */
  function RefundOver(db: Db, id: nat, balance: int): Db
    requires id < |db.reservations|
  {
    if RefundOpen(db, id) then PostOver(db, db.reservations[id].user, RedeemRefund, balance, db.reservations[id].coinsRedeemed, Some(id))
    else db
  }

  lemma FreshRefundIsPlain(db: Db, id: nat, balance: int)
    requires id < |db.reservations| && db.reservations[id].user in db.balances
    requires RefundOpen(db, id) ==> db.balances[db.reservations[id].user] == balance
    ensures RefundOver(db, id, balance) == RefundRedemption(db, id)
  {}
}
