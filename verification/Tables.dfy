/** The committed rows every booking, payment and coin transaction reads and writes. */
module Tables {
  import opened Basics
  import opened Lifecycle

  // A row's id is its position in its table: ids are never reused and rows of these tables are
  // never deleted, except hold rows. Money is in paise, times in milliseconds, dates in day numbers.

  type Time = int
  type UserId = nat

  datatype Slot = Slot(roomType: nat, night: int)

  datatype InventoryRow = InventoryRow(totalRooms: int, blockedRooms: int, soldRooms: int)

  datatype Item = Item(roomType: nat, checkIn: int, checkOut: int, quantity: int)

  datatype Reservation = Reservation(
    user: UserId, items: seq<Item>, status: ReservationStatus, totalAmount: int, currency: string,
    createdAt: Time, holdExpiresAt: Option<Time>, confirmedAt: Option<Time>,
    coinsRedeemed: int, coinsEarnable: int, coinsEarnedAt: Option<Time>)

  datatype Hold = Hold(reservation: nat, slot: Slot, quantity: int, expiresAt: Time)

  datatype PaymentStatus =
    | AttemptPending | Authorized | Captured | Failed | Refunded | PartiallyRefunded

  datatype Payment = Payment(
    reservation: nat, amount: int, currency: string, status: PaymentStatus, refundRequired: bool,
    createdAt: Time)

  /** A completed refund row; admin refunds are the only ones recorded. */
  datatype Refund = Refund(payment: nat, amount: int)

  datatype CoinEntryType = Redeem | RedeemRefund | Earn | Adjust

  datatype CoinEntry = CoinEntry(
    user: UserId, kind: CoinEntryType, amount: int, balanceAfter: int, reservation: Option<nat>)

  datatype Db = Db(
    now: Time,
    inventory: map<Slot, InventoryRow>,
    reservations: seq<Reservation>,
    holds: seq<Hold>,
    payments: seq<Payment>,
    refunds: seq<Refund>,
    balances: map<UserId, int>,
    ledger: seq<CoinEntry>,
    history: seq<HistoryEntry>)

  /** Deployment settings the transactions read. */
  datatype Config = Config(holdTtlMs: Time, minHoldRemainingMs: Time, staleAttemptMs: Time)

  predicate Covers(item: Item, slot: Slot) {
    slot.roomType == item.roomType && item.checkIn <= slot.night < item.checkOut
  }

  /** Rooms the items of one reservation take on one night. */
  function Demand(items: seq<Item>, slot: Slot): int {
    if |items| == 0 then 0
    else Demand(items[..|items| - 1], slot)
         + if Covers(items[|items| - 1], slot) then items[|items| - 1].quantity else 0
  }

  /** The expiry lies strictly after `now`. */
  predicate HoldLive(r: Reservation, now: Time) {
    r.holdExpiresAt.Some? && r.holdExpiresAt.value > now
  }

  /** What a reservation adds to `soldRooms` of a night. */
  function SoldWeight(r: Reservation, slot: Slot): int {
    if Selling(r.status) then Demand(r.items, slot) else 0
  }

  /** What a reservation holds on a night at an instant. */
  function HeldWeight(r: Reservation, slot: Slot, now: Time): int {
    if Holding(r.status) && HoldLive(r, now) then Demand(r.items, slot) else 0
  }

  function Weight(r: Reservation, slot: Slot, now: Time): int {
    SoldWeight(r, slot) + HeldWeight(r, slot, now)
  }

  function SoldWeights(rs: seq<Reservation>, slot: Slot): (ws: seq<int>)
    ensures |ws| == |rs| && forall i | 0 <= i < |rs| :: ws[i] == SoldWeight(rs[i], slot)
  {
    seq(|rs|, i requires 0 <= i < |rs| => SoldWeight(rs[i], slot))
  }

  function HeldWeights(rs: seq<Reservation>, slot: Slot, now: Time): (ws: seq<int>)
    ensures |ws| == |rs| && forall i | 0 <= i < |rs| :: ws[i] == HeldWeight(rs[i], slot, now)
  {
    seq(|rs|, i requires 0 <= i < |rs| => HeldWeight(rs[i], slot, now))
  }

  /** Rooms sold on a night, counted from the reservations instead of the counter. */
  function SoldBy(rs: seq<Reservation>, slot: Slot): int { Sum(SoldWeights(rs, slot)) }

  /** Rooms held on a night, counted from the reservations instead of the hold rows. */
  function HeldBy(rs: seq<Reservation>, slot: Slot, now: Time): int { Sum(HeldWeights(rs, slot, now)) }

  lemma LoadSnoc(rs: seq<Reservation>, r: Reservation, slot: Slot, now: Time)
    ensures SoldBy(rs + [r], slot) == SoldBy(rs, slot) + SoldWeight(r, slot)
    ensures HeldBy(rs + [r], slot, now) == HeldBy(rs, slot, now) + HeldWeight(r, slot, now)
  {
    assert SoldWeights(rs + [r], slot) == SoldWeights(rs, slot) + [SoldWeight(r, slot)];
    assert HeldWeights(rs + [r], slot, now) == HeldWeights(rs, slot, now) + [HeldWeight(r, slot, now)];
  }

  lemma LoadUpdate(rs: seq<Reservation>, id: nat, r: Reservation, slot: Slot, now: Time)
    requires id < |rs|
    ensures SoldBy(rs[id := r], slot) == SoldBy(rs, slot) - SoldWeight(rs[id], slot) + SoldWeight(r, slot)
    ensures HeldBy(rs[id := r], slot, now) == HeldBy(rs, slot, now) - HeldWeight(rs[id], slot, now) + HeldWeight(r, slot, now)
  {
    assert SoldWeights(rs[id := r], slot) == SoldWeights(rs, slot)[id := SoldWeight(r, slot)];
    SumUpdate(SoldWeights(rs, slot), id, SoldWeight(r, slot));
    assert HeldWeights(rs[id := r], slot, now) == HeldWeights(rs, slot, now)[id := HeldWeight(r, slot, now)];
    SumUpdate(HeldWeights(rs, slot, now), id, HeldWeight(r, slot, now));
  }
}
