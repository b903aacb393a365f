/** The reservation state machine of booking-lifecycle.ts. */
module Lifecycle {

  datatype ReservationStatus =
    | Pending | PaymentPending | Confirmed | Cancelled | Expired | Completed | NoShow

  function AllowedTransitions(from: ReservationStatus): set<ReservationStatus> {
    match from
    case Pending => {PaymentPending, Cancelled, Expired}
    case PaymentPending => {Confirmed, Cancelled, Expired}
    case Confirmed => {Completed, Cancelled, NoShow}
    case Cancelled => {}
    case Expired => {Confirmed}
    case Completed => {}
    case NoShow => {}
  }

  predicate CanTransition(from: ReservationStatus, to: ReservationStatus) {
    to in AllowedTransitions(from)
  }

  /** Statuses whose unexpired hold rows take rooms away from availability. */
  predicate Holding(status: ReservationStatus) {
    status == PaymentPending
  }

  /** Statuses whose rooms are counted in `soldRooms`. */
  predicate Selling(status: ReservationStatus) {
    status == Confirmed || status == Completed || status == NoShow
  }

  /** How far a reservation has come; every legal edge raises it. */
  function Rank(status: ReservationStatus): nat {
    match status
    case Pending => 0
    case PaymentPending => 1
    case Expired => 2
    case Confirmed => 3
    case Cancelled => 4
    case Completed => 4
    case NoShow => 4
  }

  /** One row of the audit trail. */
  datatype HistoryEntry = HistoryEntry(reservation: nat, from: ReservationStatus, to: ReservationStatus)

  /** A row is either a legal edge or the self-loop a refund records. */
  predicate LegalEntry(entry: HistoryEntry) {
    CanTransition(entry.from, entry.to) || entry.from == entry.to
  }

  /** `trail` is a contiguous walk of legal entries from `start` to `end`. */
  predicate Walk(trail: seq<HistoryEntry>, start: ReservationStatus, end: ReservationStatus) {
    if |trail| == 0 then start == end
    else
      var last := trail[|trail| - 1];
      last.to == end && LegalEntry(last) && Walk(trail[..|trail| - 1], start, last.from)
  }

  /** Rows of a walk that really change the status. */
  function Changes(trail: seq<HistoryEntry>): nat {
    if |trail| == 0 then 0
    else Changes(trail[..|trail| - 1])
         + if trail[|trail| - 1].from != trail[|trail| - 1].to then 1 else 0
  }

  /** Rows that arrive in `status` from another status. */
  function Arrivals(trail: seq<HistoryEntry>, status: ReservationStatus): nat {
    if |trail| == 0 then 0
    else Arrivals(trail[..|trail| - 1], status)
         + if trail[|trail| - 1].from != status && trail[|trail| - 1].to == status then 1 else 0
  }

  /** Every real change uses up rank, so a walk has boundedly many of them. */
  lemma {:induction false} WalkChangesBounded(trail: seq<HistoryEntry>, start: ReservationStatus, end: ReservationStatus)
    requires Walk(trail, start, end)
    ensures Rank(start) + Changes(trail) <= Rank(end) <= 4
  {
    if |trail| > 0 {
      WalkChangesBounded(trail[..|trail| - 1], start, trail[|trail| - 1].from);
    }
  }

  /** No status is entered twice: once left, it lies below every later status. */
  lemma {:induction false} WalkArrivesOnce(trail: seq<HistoryEntry>, start: ReservationStatus, end: ReservationStatus,
                                           status: ReservationStatus)
    requires Walk(trail, start, end)
    ensures Arrivals(trail, status) <= 1
    ensures Rank(end) < Rank(status) ==> Arrivals(trail, status) == 0
    ensures Rank(end) == Rank(status) && end != status ==> Arrivals(trail, status) == 0
    ensures start == status ==> Arrivals(trail, status) == 0
    ensures Rank(start) <= Rank(end)
  {
    if |trail| > 0 {
      WalkArrivesOnce(trail[..|trail| - 1], start, trail[|trail| - 1].from, status);
    }
  }

  /** Once a walk has been through Confirmed it never enters Expired again. */
  lemma {:induction false} WalkNeverExpiresAfterConfirm(trail: seq<HistoryEntry>, start: ReservationStatus,
                                                        end: ReservationStatus, i: nat, j: nat)
    requires Walk(trail, start, end)
    requires i < j < |trail|
    requires trail[i].to == Confirmed
    ensures trail[j].to != Expired
    ensures Rank(trail[i].to) <= Rank(end)
  {
    var n := |trail| - 1;
    if j < n {
      assert trail[..n][i] == trail[i] && trail[..n][j] == trail[j];
      WalkNeverExpiresAfterConfirm(trail[..n], start, trail[n].from, i, j);
    } else {
      WalkRankAt(trail[..n], start, trail[n].from, i);
    }
  }

  lemma {:induction false} WalkRankAt(trail: seq<HistoryEntry>, start: ReservationStatus, end: ReservationStatus, i: nat)
    requires Walk(trail, start, end)
    requires i < |trail|
    ensures Rank(trail[i].to) <= Rank(end)
  {
    var n := |trail| - 1;
    if i < n {
      WalkRankAt(trail[..n], start, trail[n].from, i);
    }
  }
}
