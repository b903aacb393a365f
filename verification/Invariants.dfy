/** What every reachable state of the tables satisfies, one aspect at a time. */
module Invariants {
  import opened Basics
  import opened Lifecycle
  import opened Tables
  import opened Inventory
  import opened Transactions

  // ---- stays: reservations, hold rows and the sold counter

  /** Creation writes exactly one item, with loaded nights; nothing rewrites it. */
  ghost predicate ItemOk(inventory: map<Slot, InventoryRow>, r: Reservation) {
    && |r.items| == 1
    && r.items[0].quantity >= 1
    && r.items[0].checkIn < r.items[0].checkOut
    && forall slot | Covers(r.items[0], slot) :: slot in inventory
  }

  /** How the status fixes the hold expiry and the confirmation stamp. */
  predicate StampOk(r: Reservation) {
    match r.status
    case Pending => false
    case PaymentPending => r.holdExpiresAt.Some? && r.confirmedAt.None?
    case Expired => r.confirmedAt.None?
    case Confirmed => r.confirmedAt.Some?
    case Completed => r.confirmedAt.Some?
    case NoShow => r.confirmedAt.Some?
    case Cancelled => true
  }

  ghost predicate RowOk(inventory: map<Slot, InventoryRow>, rs: seq<Reservation>, id: nat)
    requires id < |rs|
  {
    ItemOk(inventory, rs[id]) && StampOk(rs[id])
  }

  ghost predicate RowsOk(inventory: map<Slot, InventoryRow>, rs: seq<Reservation>) {
    forall id | 0 <= id < |rs| :: RowOk(inventory, rs, id)
  }

  /** The counter of every night equals the rooms of the confirmed, completed and no-show stays. */
  ghost predicate SoldOk(inventory: map<Slot, InventoryRow>, rs: seq<Reservation>) {
    forall slot | slot in inventory :: inventory[slot].soldRooms == SoldBy(rs, slot)
  }

  /** The hold rows a reservation must have: one per item night while payment is pending, else none. */
  function ExpectedHolds(id: nat, r: Reservation): seq<Hold> {
    if r.status == PaymentPending && |r.items| == 1 && r.holdExpiresAt.Some?
    then BuildHoldRows(id, r.items[0], r.holdExpiresAt.value)
    else []
  }

  predicate HoldRowsMatch(rs: seq<Reservation>, holds: seq<Hold>, id: nat)
    requires id < |rs|
  {
    HoldsOf(holds, id) == ExpectedHolds(id, rs[id])
  }

  ghost predicate HoldsOk(rs: seq<Reservation>, holds: seq<Hold>) {
    && (forall i | 0 <= i < |holds| :: holds[i].reservation < |rs|)
    && forall id | 0 <= id < |rs| :: HoldRowsMatch(rs, holds, id)
  }

  ghost predicate StayInv(db: Db) {
    && RowsOk(db.inventory, db.reservations)
    && SoldOk(db.inventory, db.reservations)
    && HoldsOk(db.reservations, db.holds)
  }

  /** No night has more rooms sold, blocked and held than it has rooms. */
  ghost predicate NoOversell(db: Db) {
    forall slot | slot in db.inventory :: FreeRooms(db, slot, db.now) >= 0
  }

  // ---- hold lifetime

  ghost predicate HoldBoundOk(now: Time, rs: seq<Reservation>) {
    forall id | 0 <= id < |rs| ::
      && rs[id].createdAt <= now
      && (rs[id].status == PaymentPending && rs[id].holdExpiresAt.Some? ==>
            rs[id].holdExpiresAt.value <= rs[id].createdAt + MAX_HOLD_MS)
  }

  // ---- payments

  predicate KeptCharge(p: Payment) {
    p.status == Captured && !p.refundRequired
  }

  ghost predicate PaymentsOk(rs: seq<Reservation>, payments: seq<Payment>) {
    && (forall p | 0 <= p < |payments| ::
          && payments[p].reservation < |rs|
          && payments[p].amount == rs[payments[p].reservation].totalAmount
          && payments[p].currency == rs[payments[p].reservation].currency
          && (KeptCharge(payments[p]) ==> rs[payments[p].reservation].confirmedAt.Some?))
    && (forall p, q | 0 <= p < q < |payments| && payments[p].reservation == payments[q].reservation ::
          && !(KeptCharge(payments[p]) && KeptCharge(payments[q]))
          && !(LiveAttempt(payments[p]) && LiveAttempt(payments[q])))
  }

  ghost predicate RefundsOk(payments: seq<Payment>, refunds: seq<Refund>) {
    && (forall i | 0 <= i < |refunds| :: refunds[i].payment < |payments|)
    && forall p | 0 <= p < |payments| :: 0 <= RefundedSum(refunds, p) <= payments[p].amount
  }

  ghost predicate PaymentInv(db: Db) {
    && PaymentsOk(db.reservations, db.payments)
    && RefundsOk(db.payments, db.refunds)
    && forall id | 0 <= id < |db.reservations| :: db.reservations[id].totalAmount >= 0
  }

  // ---- coins

  function UserTotal(ledger: seq<CoinEntry>, user: UserId): int {
    if |ledger| == 0 then 0
    else UserTotal(ledger[..|ledger| - 1], user)
         + if ledger[|ledger| - 1].user == user then ledger[|ledger| - 1].amount else 0
  }

  /** `balanceAfter` of the user's newest ledger row. */
  function LatestBalance(ledger: seq<CoinEntry>, user: UserId): Option<int> {
    if |ledger| == 0 then None
    else if ledger[|ledger| - 1].user == user then Some(ledger[|ledger| - 1].balanceAfter)
    else LatestBalance(ledger[..|ledger| - 1], user)
  }

  predicate EntryOf(e: CoinEntry, id: nat, kind: CoinEntryType) {
    e.reservation == Some(id) && e.kind == kind
  }

  function KindCount(ledger: seq<CoinEntry>, id: nat, kind: CoinEntryType): nat {
    if |ledger| == 0 then 0
    else KindCount(ledger[..|ledger| - 1], id, kind)
         + if EntryOf(ledger[|ledger| - 1], id, kind) then 1 else 0
  }

  function KindTotal(ledger: seq<CoinEntry>, id: nat, kind: CoinEntryType): int {
    if |ledger| == 0 then 0
    else KindTotal(ledger[..|ledger| - 1], id, kind)
         + if EntryOf(ledger[|ledger| - 1], id, kind) then ledger[|ledger| - 1].amount else 0
  }

  /** The reservation's trail went through EXPIRED or CANCELLED. */
  predicate WasReleased(history: seq<HistoryEntry>, id: nat) {
    if |history| == 0 then false
    else
      var last := history[|history| - 1];
      (last.reservation == id && (last.to == Expired || last.to == Cancelled))
      || WasReleased(history[..|history| - 1], id)
  }

  ghost predicate AccountsOk(balances: map<UserId, int>, ledger: seq<CoinEntry>) {
    && (forall i | 0 <= i < |ledger| :: ledger[i].user in balances)
    && forall user | user in balances ::
         && balances[user] == UserTotal(ledger, user)
         && balances[user] >= 0
         && (LatestBalance(ledger, user).Some? ==> LatestBalance(ledger, user).value == balances[user])
         && (LatestBalance(ledger, user).None? ==> balances[user] == 0)
  }

  /** The ledger rows of one reservation, as its own columns and trail demand them. */
  ghost predicate CoinRowsOk(id: nat, r: Reservation, ledger: seq<CoinEntry>, history: seq<HistoryEntry>) {
    && r.coinsRedeemed >= 0
    && (r.status == Expired || r.status == Cancelled ==> WasReleased(history, id))
    && KindCount(ledger, id, Redeem) == (if r.coinsRedeemed > 0 then 1 else 0)
    && KindTotal(ledger, id, Redeem) == -r.coinsRedeemed
    && KindCount(ledger, id, RedeemRefund) == (if r.coinsRedeemed > 0 && WasReleased(history, id) then 1 else 0)
    && KindTotal(ledger, id, RedeemRefund) == (if WasReleased(history, id) then r.coinsRedeemed else 0)
    && (r.coinsEarnedAt.Some? ==> r.status == Completed)
    && KindCount(ledger, id, Earn) == (if r.coinsEarnedAt.Some? && r.coinsEarnable > 0 then 1 else 0)
    && KindTotal(ledger, id, Earn) == (if r.coinsEarnedAt.Some? && r.coinsEarnable > 0 then r.coinsEarnable else 0)
  }

  ghost predicate CoinInv(db: Db) {
    && AccountsOk(db.balances, db.ledger)
    && (forall i | 0 <= i < |db.ledger| ::
          db.ledger[i].reservation.Some? ==> db.ledger[i].reservation.value < |db.reservations|)
    && (forall i | 0 <= i < |db.history| :: db.history[i].reservation < |db.reservations|)
    && forall id | 0 <= id < |db.reservations| :: CoinRowOk(db, id)
  }

  ghost predicate CoinRowOk(db: Db, id: nat)
    requires id < |db.reservations|
  {
    db.reservations[id].user in db.balances && CoinRowsOk(id, db.reservations[id], db.ledger, db.history)
  }

  // ---- audit trail

  function Trail(history: seq<HistoryEntry>, id: nat): seq<HistoryEntry> {
    if |history| == 0 then []
    else Trail(history[..|history| - 1], id)
         + if history[|history| - 1].reservation == id then [history[|history| - 1]] else []
  }

  /** The trail of every reservation leads from PAYMENT_PENDING to its current status. */
  ghost predicate TrailInv(db: Db) {
    && (forall i | 0 <= i < |db.history| :: db.history[i].reservation < |db.reservations|)
    && forall id | 0 <= id < |db.reservations| :: TrailOk(db, id)
  }

  predicate TrailOk(db: Db, id: nat)
    requires id < |db.reservations|
  {
    Walk(Trail(db.history, id), PaymentPending, db.reservations[id].status)
  }

  // ---- starting point

  /** An opened hotel before its first booking: loaded nights, coin accounts at zero, no other row. */
  ghost predicate Initial(db: Db) {
    && (forall slot | slot in db.inventory ::
          db.inventory[slot].soldRooms == 0 && db.inventory[slot].blockedRooms <= db.inventory[slot].totalRooms)
    && (forall user | user in db.balances :: db.balances[user] == 0)
    && db.reservations == [] && db.holds == [] && db.payments == [] && db.refunds == []
    && db.ledger == [] && db.history == []
  }

  ghost predicate Inv(db: Db) {
    StayInv(db) && PaymentInv(db) && CoinInv(db) && TrailInv(db)
  }
}
