/** Coins are conserved: balances are the ledger, and every reservation's rows net to what its trail says. */
module CoinProofs {
  import opened Basics
  import opened Lifecycle
  import opened Tables
  import opened Inventory
  import opened Coins
  import opened Transactions
  import opened Invariants
  import opened PaymentProofs
  import opened StaySteps

  lemma LedgerSnoc(ledger: seq<CoinEntry>, e: CoinEntry, user: UserId, id: nat, kind: CoinEntryType)
    ensures UserTotal(ledger + [e], user) == UserTotal(ledger, user) + if e.user == user then e.amount else 0
    ensures LatestBalance(ledger + [e], user) == if e.user == user then Some(e.balanceAfter) else LatestBalance(ledger, user)
    ensures KindCount(ledger + [e], id, kind) == KindCount(ledger, id, kind) + if EntryOf(e, id, kind) then 1 else 0
    ensures KindTotal(ledger + [e], id, kind) == KindTotal(ledger, id, kind) + if EntryOf(e, id, kind) then e.amount else 0
  {
    assert (ledger + [e])[..|ledger|] == ledger;
  }

  lemma HistorySnoc(history: seq<HistoryEntry>, e: HistoryEntry, id: nat)
    ensures WasReleased(history + [e], id)
            <==> WasReleased(history, id) || (e.reservation == id && (e.to == Expired || e.to == Cancelled))
    ensures Trail(history + [e], id) == Trail(history, id) + if e.reservation == id then [e] else []
  {
    assert (history + [e])[..|history|] == history;
  }

  /** The existence test of the services is the ledger count being positive. */
  lemma {:induction false} HasEntryIsCount(ledger: seq<CoinEntry>, id: nat, kind: CoinEntryType)
    ensures HasEntry(ledger, id, kind) <==> KindCount(ledger, id, kind) > 0
  {
    if |ledger| > 0 {
      var front, last := ledger[..|ledger| - 1], ledger[|ledger| - 1];
      HasEntryIsCount(front, id, kind);
      assert forall i | 0 <= i < |front| :: front[i] == ledger[i];
      if EntryOf(last, id, kind) {
        assert ledger[|ledger| - 1].reservation == Some(id);
      }
    }
  }

  /** Posting keeps balances equal to the ledger, as long as the balance stays non-negative. */
  lemma PostKeepsAccounts(db: Db, user: UserId, kind: CoinEntryType, amount: int, reservation: Option<nat>)
    requires AccountsOk(db.balances, db.ledger) && user in db.balances && db.balances[user] + amount >= 0
    ensures var db' := Post(db, user, kind, amount, reservation); AccountsOk(db'.balances, db'.ledger)
  {
    var db' := Post(db, user, kind, amount, reservation);
    var e := db'.ledger[|db.ledger|];
    forall u | u in db'.balances
      ensures && db'.balances[u] == UserTotal(db'.ledger, u)
              && db'.balances[u] >= 0
              && (LatestBalance(db'.ledger, u).Some? ==> LatestBalance(db'.ledger, u).value == db'.balances[u])
              && (LatestBalance(db'.ledger, u).None? ==> db'.balances[u] == 0)
    {
      LedgerSnoc(db.ledger, e, u, 0, kind);
    }
  }

  /** The coin tables follow reservation `id` only. */
  ghost predicate CoinMove(db: Db, db': Db, id: nat) {
    && id < |db.reservations| && |db'.reservations| == |db.reservations|
    && db'.reservations == db.reservations[id := db'.reservations[id]]
    && TermsKept(db.reservations[id], db'.reservations[id])
    && (|| (db'.ledger == db.ledger && db'.balances == db.balances)
        || (exists e :: db'.ledger == db.ledger + [e] && e.reservation == Some(id)
                        && db'.balances.Keys == db.balances.Keys && AccountsOk(db'.balances, db'.ledger)))
    && (db'.history == db.history || (exists h :: db'.history == db.history + [h] && h.reservation == id))
  }

  lemma CoinMoveKeeps(db: Db, db': Db, id: nat)
    requires CoinInv(db) && CoinMove(db, db', id)
    requires CoinRowsOk(id, db'.reservations[id], db'.ledger, db'.history)
    ensures CoinInv(db')
  {
    forall k | 0 <= k < |db'.reservations| ensures CoinRowOk(db', k) {
      assert CoinRowOk(db, k);
      if k != id {
        OtherRowsKept(db, db', id, k);
      }
    }
  }

  /** Rows added for one booking leave what another one's rows say. */
  lemma OtherRowsKept(db: Db, db': Db, id: nat, k: nat)
    requires k < |db.reservations| && k < |db'.reservations| && k != id && CoinRowOk(db, k)
    requires db'.reservations[k] == db.reservations[k] && db'.balances.Keys == db.balances.Keys
    requires db'.ledger == db.ledger || (exists e :: db'.ledger == db.ledger + [e] && e.reservation == Some(id))
    requires db'.history == db.history || (exists h :: db'.history == db.history + [h] && h.reservation == id)
    ensures CoinRowOk(db', k)
  {
    if db'.ledger != db.ledger {
      var e :| db'.ledger == db.ledger + [e] && e.reservation == Some(id);
      EntryRows(db.ledger, e, k);
    }
    if db'.history != db.history {
      var h :| db'.history == db.history + [h] && h.reservation == id;
      HistorySnoc(db.history, h, k);
    }
  }
  // ---- the steps that post coins

  /** Refunding gives back exactly what was redeemed, once, and only when the trail had not been released before. */
  lemma RefundRows(db: Db, id: nat)
    requires id < |db.reservations| && AccountsOk(db.balances, db.ledger) && db.reservations[id].user in db.balances
    requires db.reservations[id].coinsRedeemed >= 0
    ensures var db', c := RefundRedemption(db, id), db.reservations[id].coinsRedeemed;
            && db' == db.(balances := db'.balances, ledger := db'.ledger)
            && AccountsOk(db'.balances, db'.ledger) && db'.balances.Keys == db.balances.Keys
            && (if c > 0 && KindCount(db.ledger, id, RedeemRefund) == 0
                then (exists e :: db'.ledger == db.ledger + [e] && e.reservation == Some(id) && e.kind == RedeemRefund && e.amount == c)
                else db'.ledger == db.ledger && db'.balances == db.balances)
  {
    var r := db.reservations[id];
    HasEntryIsCount(db.ledger, id, RedeemRefund);
    if r.coinsRedeemed > 0 && KindCount(db.ledger, id, RedeemRefund) == 0 {
      PostKeepsAccounts(db, r.user, RedeemRefund, r.coinsRedeemed, Some(id));
      var e := RefundRedemption(db, id).ledger[|db.ledger|];
      assert RefundRedemption(db, id).ledger == db.ledger + [e] && e.reservation == Some(id);
    }
  }

  /** Releasing a reservation (expiry or cancellation) nets its redemption to zero. */
  lemma ReleaseKeepsCoins(db: Db, freed: Db, db': Db, id: nat, to: ReservationStatus)
    requires CoinInv(db) && id < |db.reservations|
    requires to == Expired || to == Cancelled
    requires CanTransition(db.reservations[id].status, to)
    requires |freed.reservations| == |db.reservations|
    requires freed.reservations == db.reservations[id := freed.reservations[id]] && freed.reservations[id].status == to
    requires TermsKept(db.reservations[id], freed.reservations[id])
    requires freed.reservations[id].coinsEarnedAt == db.reservations[id].coinsEarnedAt
    requires freed.balances == db.balances && freed.ledger == db.ledger && freed.history == db.history
    requires var refunded := RefundRedemption(freed, id);
             db'.reservations == refunded.reservations && db'.balances == refunded.balances && db'.ledger == refunded.ledger
             && db'.history == Record(refunded.history, id, db.reservations[id].status, to)
    ensures CoinInv(db')
  {
    var h := HistoryEntry(id, db.reservations[id].status, to);
    assert CoinRowOk(db, id);
    RefundRows(freed, id);
    assert db'.history == db.history + [h] && h.reservation == id;
    ReleasedRow(db, db', id, h);
    CoinMoveKeeps(db, db', id);
  }

  /** The coin rows of a booking just released, with its refund posted unless it had been before. */
  lemma ReleasedRow(db: Db, db': Db, id: nat, h: HistoryEntry)
    requires id < |db.reservations| && CoinRowOk(db, id) && id < |db'.reservations|
    requires var r, r' := db.reservations[id], db'.reservations[id];
             && TermsKept(r, r') && r'.coinsEarnedAt == r.coinsEarnedAt
             && (r'.status == Expired || r'.status == Cancelled) && r'.status == h.to && h.reservation == id
             && CanTransition(r.status, r'.status)
             && (if r.coinsRedeemed > 0 && KindCount(db.ledger, id, RedeemRefund) == 0
                 then (exists e :: db'.ledger == db.ledger + [e] && e.reservation == Some(id) && e.kind == RedeemRefund && e.amount == r.coinsRedeemed)
                 else db'.ledger == db.ledger)
             && db'.history == db.history + [h]
    ensures CoinRowsOk(id, db'.reservations[id], db'.ledger, db'.history)
  {
    var r := db.reservations[id];
    HistorySnoc(db.history, h, id);
    if r.coinsRedeemed > 0 && KindCount(db.ledger, id, RedeemRefund) == 0 {
      var e :| db'.ledger == db.ledger + [e] && e.reservation == Some(id) && e.kind == RedeemRefund && e.amount == r.coinsRedeemed;
      EntryRows(db.ledger, e, id);
    }
  }

  /** A new row of one kind moves that kind's count and total, and no other kind's. */
  lemma EntryRows(ledger: seq<CoinEntry>, e: CoinEntry, id: nat)
    ensures forall kind | !EntryOf(e, id, kind) ::
              KindCount(ledger + [e], id, kind) == KindCount(ledger, id, kind)
              && KindTotal(ledger + [e], id, kind) == KindTotal(ledger, id, kind)
    ensures e.reservation == Some(id) ==>
              KindCount(ledger + [e], id, e.kind) == KindCount(ledger, id, e.kind) + 1
              && KindTotal(ledger + [e], id, e.kind) == KindTotal(ledger, id, e.kind) + e.amount
  {
    forall kind | !EntryOf(e, id, kind)
      ensures KindCount(ledger + [e], id, kind) == KindCount(ledger, id, kind)
              && KindTotal(ledger + [e], id, kind) == KindTotal(ledger, id, kind)
    {
      LedgerSnoc(ledger, e, 0, id, kind);
    }
    LedgerSnoc(ledger, e, 0, id, e.kind);
  }

  lemma ExpireKeepsCoins(db: Db, id: nat)
    requires CoinInv(db) && ExpireReservation(db, id).1
    ensures CoinInv(ExpireReservation(db, id).0)
  {
    var r := db.reservations[id];
    var freed := db.(reservations := db.reservations[id := r.(status := Expired)], holds := ReleaseHolds(db.holds, id));
    ReleaseKeepsCoins(db, freed, ExpireReservation(db, id).0, id, Expired);
  }

  lemma CancelKeepsCoins(db: Db, id: nat, refund: bool)
    requires CoinInv(db) && AdminCancel(db, id, refund).Committed?
    ensures CoinInv(AdminCancel(db, id, refund).db)
  {
    var r := db.reservations[id];
    var freed := db.(
      holds := if r.status == PaymentPending then ReleaseHolds(db.holds, id) else db.holds,
      inventory := if r.status == Confirmed then RestoreItems(db.inventory, r.items) else db.inventory,
      reservations := db.reservations[id := r.(status := Cancelled, holdExpiresAt := None)]);
    ReleaseKeepsCoins(db, freed, AdminCancel(db, id, refund).db, id, Cancelled);
  }

  /** Status changes that post nothing and do not release the booking. */
  lemma QuietMoveKeepsCoins(db: Db, db': Db, id: nat, to: ReservationStatus)
    requires CoinInv(db) && id < |db.reservations|
    requires |db'.reservations| == |db.reservations| && db'.reservations == db.reservations[id := db'.reservations[id]]
    requires TermsKept(db.reservations[id], db'.reservations[id])
    requires db'.reservations[id].status == to && db'.reservations[id].coinsEarnedAt == db.reservations[id].coinsEarnedAt
    requires db'.ledger == db.ledger && db'.balances == db.balances
    requires db'.history == Record(db.history, id, db.reservations[id].status, to)
    requires (to == db.reservations[id].status) || (CanTransition(db.reservations[id].status, to) && to != Expired && to != Cancelled)
    ensures CoinInv(db')
  {
    assert CoinRowOk(db, id);
    var h := HistoryEntry(id, db.reservations[id].status, to);
    HistorySnoc(db.history, h, id);
    assert db'.history == db.history + [h] && h.reservation == id;
    CoinMoveKeeps(db, db', id);
  }

  /** Stamping a booking that earns nothing. */
  lemma StampKeepsCoins(db: Db, db': Db, id: nat)
    requires CoinInv(db) && id < |db.reservations| && db.reservations[id].status == Completed && db.reservations[id].coinsEarnable <= 0
    requires db' == db.(reservations := db.reservations[id := db.reservations[id].(coinsEarnedAt := Some(db.now))])
    ensures CoinInv(db')
  {
    assert CoinRowOk(db, id);
    CoinMoveKeeps(db, db', id);
  }

  /** Posting and stamping what a booking earns, when it has not earned before. */
  lemma CreditKeepsCoins(db: Db, db': Db, id: nat)
    requires CoinInv(db) && id < |db.reservations| && db.reservations[id].status == Completed
    requires db.reservations[id].coinsEarnable > 0 && !HasEntry(db.ledger, id, Earn)
    requires db.reservations[id].user in db.balances
    requires db' == Post(db, db.reservations[id].user, Earn, db.reservations[id].coinsEarnable, Some(id))
                    .(reservations := db.reservations[id := db.reservations[id].(coinsEarnedAt := Some(db.now))])
    ensures CoinInv(db')
  {
    var r, e := db.reservations[id], db'.ledger[|db.ledger|];
    assert CoinRowOk(db, id);
    HasEntryIsCount(db.ledger, id, Earn);
    PostKeepsAccounts(db, r.user, Earn, r.coinsEarnable, Some(id));
    assert db'.ledger == db.ledger + [e] && e.reservation == Some(id);
    EarnedRow(db, db', id, e);
    CoinMoveKeeps(db, db', id);
  }

  lemma EarnedRow(db: Db, db': Db, id: nat, e: CoinEntry)
    requires id < |db.reservations| && CoinRowOk(db, id) && id < |db'.reservations|
    requires db.reservations[id].status == Completed && db.reservations[id].coinsEarnable > 0 && KindCount(db.ledger, id, Earn) == 0
    requires db'.reservations[id] == db.reservations[id].(coinsEarnedAt := Some(db.now)) && db'.history == db.history
    requires db'.ledger == db.ledger + [e] && EntryOf(e, id, Earn) && e.amount == db.reservations[id].coinsEarnable
    ensures CoinRowsOk(id, db'.reservations[id], db'.ledger, db'.history)
  {
    EntryRows(db.ledger, e, id);
  }

  lemma EarnKeepsCoins(db: Db, id: nat)
    requires CoinInv(db)
    ensures CoinInv(CreditEarnOnComplete(db, id).0)
  {
    var db' := CreditEarnOnComplete(db, id).0;
    if db' != db {
      if db.reservations[id].coinsEarnable <= 0 {
        StampKeepsCoins(db, db', id);
      } else {
        CreditKeepsCoins(db, db', id);
      }
    }
  }

  lemma AdjustKeepsCoins(db: Db, user: UserId, amount: int)
    requires CoinInv(db) && AdjustBalance(db, user, amount).Some?
    ensures CoinInv(AdjustBalance(db, user, amount).value)
  {
    var db' := AdjustBalance(db, user, amount).value;
    PostKeepsAccounts(db, user, Adjust, amount, None);
    var e := db'.ledger[|db.ledger|];
    forall k | 0 <= k < |db'.reservations| ensures CoinRowOk(db', k) {
      assert CoinRowOk(db, k);
      EntryRows(db.ledger, e, k);
    }
  }

  lemma {:induction false} NoRowsBeyond(ledger: seq<CoinEntry>, history: seq<HistoryEntry>, id: nat, kind: CoinEntryType)
    requires forall i | 0 <= i < |ledger| :: ledger[i].reservation != Some(id)
    requires forall i | 0 <= i < |history| :: history[i].reservation != id
    ensures KindCount(ledger, id, kind) == 0 && KindTotal(ledger, id, kind) == 0
    ensures !WasReleased(history, id) && Trail(history, id) == []
    decreases |ledger| + |history|
  {
    if |ledger| > 0 {
      NoRowsBeyond(ledger[..|ledger| - 1], history, id, kind);
    } else if |history| > 0 {
      NoRowsBeyond(ledger, history[..|history| - 1], id, kind);
    }
  }

  /** A booking posts its redemption, or nothing, to the account of its guest. */
  lemma CreatePosts(cfg: Config, db: Db, req: BookingRequest)
    requires AccountsOk(db.balances, db.ledger) && CreateBooking(cfg, db, req).Committed?
    ensures var db', id := CreateBooking(cfg, db, req).db, |db.reservations|;
            && db'.reservations == db.reservations + [NewReservation(cfg, req, db.now)]
            && db'.history == db.history && req.user in db.balances
            && db'.balances.Keys == db.balances.Keys && AccountsOk(db'.balances, db'.ledger)
            && (if req.coinsRedeemed > 0
                then |db'.ledger| == |db.ledger| + 1 && db'.ledger == db.ledger + [db'.ledger[|db.ledger|]]
                     && EntryOf(db'.ledger[|db.ledger|], id, Redeem) && db'.ledger[|db.ledger|].amount == 0 - req.coinsRedeemed
                else db'.ledger == db.ledger)
  {
    var db', id := CreateBooking(cfg, db, req).db, |db.reservations|;
    if req.coinsRedeemed > 0 {
      PostKeepsAccounts(db, req.user, Redeem, 0 - req.coinsRedeemed, Some(id));
    }
  }

  lemma CreateKeepsCoins(cfg: Config, db: Db, req: BookingRequest)
    requires CoinInv(db) && CreateBooking(cfg, db, req).Committed?
    ensures CoinInv(CreateBooking(cfg, db, req).db)
  {
    var db', id := CreateBooking(cfg, db, req).db, |db.reservations|;
    CreatePosts(cfg, db, req);
    forall k | 0 <= k < |db'.reservations| ensures CoinRowOk(db', k) {
      if k < id {
        assert CoinRowOk(db, k);
        OtherRowsKept(db, db', id, k);
      } else {
        BookedRow(db.ledger, db'.ledger, db.history, id, db'.reservations[id]);
      }
    }
  }

  /** A new booking has no row but that of its redemption. */
  lemma BookedRow(ledger: seq<CoinEntry>, ledger': seq<CoinEntry>, history: seq<HistoryEntry>, id: nat, r: Reservation)
    requires forall i | 0 <= i < |ledger| :: ledger[i].reservation != Some(id)
    requires forall i | 0 <= i < |history| :: history[i].reservation != id
    requires r.status == PaymentPending && r.coinsRedeemed >= 0 && r.coinsEarnedAt.None?
    requires if r.coinsRedeemed > 0
             then exists e :: ledger' == ledger + [e] && EntryOf(e, id, Redeem) && e.amount == 0 - r.coinsRedeemed
             else ledger' == ledger
    ensures CoinRowsOk(id, r, ledger', history)
  {
    forall kind ensures KindCount(ledger, id, kind) == 0 && KindTotal(ledger, id, kind) == 0 && !WasReleased(history, id) {
      NoRowsBeyond(ledger, history, id, kind);
    }
    if r.coinsRedeemed > 0 {
      var e :| ledger' == ledger + [e] && EntryOf(e, id, Redeem) && e.amount == 0 - r.coinsRedeemed;
      EntryRows(ledger, e, id);
    }
  }

  /** A notification confirms quietly or leaves the coin tables alone. */
  lemma NotifyKeepsCoins(db: Db, n: Notification)
    requires CoinInv(db)
    ensures CoinInv(ProcessNotification(db, n).0)
  {
    var db', id := ProcessNotification(db, n).0, n.reservation;
    NotifyCoinShape(db, n);
    if db'.history != db.history {
      QuietMoveKeepsCoins(db, db', id, Confirmed);
    } else {
      assert forall k | 0 <= k < |db.reservations| :: CoinRowOk(db, k) ==> CoinRowOk(db', k);
    }
  }

  lemma NotifyCoinShape(db: Db, n: Notification)
    ensures var db', id := ProcessNotification(db, n).0, n.reservation;
            && db'.ledger == db.ledger && db'.balances == db.balances
            && (|| (db'.history == db.history && db'.reservations == db.reservations)
                || (&& id < |db.reservations| == |db'.reservations|
                    && db'.reservations == db.reservations[id := db'.reservations[id]]
                    && TermsKept(db.reservations[id], db'.reservations[id])
                    && db'.reservations[id].status == Confirmed
                    && db'.reservations[id].coinsEarnedAt == db.reservations[id].coinsEarnedAt
                    && CanTransition(db.reservations[id].status, Confirmed)
                    && db'.history == Record(db.history, id, db.reservations[id].status, Confirmed)))
  {
    NotifyShapes(db, n);
  }

  /** The coin tables a step does not name stay as they were. */
  predicate Coinless(step: Step) {
    step.Extend? || step.Prepare? || step.Publish? || step.FailSession? || step.Tick?
  }

  lemma CoinlessFrame(cfg: Config, db: Db, step: Step)
    requires Coinless(step)
    ensures SameCoins(db, Apply(cfg, db, step))
  {}

  ghost predicate SameCoins(db: Db, db': Db) {
    && db'.ledger == db.ledger && db'.balances == db.balances && db'.history == db.history
    && |db'.reservations| == |db.reservations|
    && forall k | 0 <= k < |db.reservations| ::
         db'.reservations[k] == db.reservations[k].(holdExpiresAt := db'.reservations[k].holdExpiresAt)
  }

  lemma CoinlessKeeps(cfg: Config, db: Db, step: Step)
    requires CoinInv(db) && Coinless(step)
    ensures CoinInv(Apply(cfg, db, step))
  {
    var db' := Apply(cfg, db, step);
    CoinlessFrame(cfg, db, step);
    forall k | 0 <= k < |db'.reservations| ensures CoinRowOk(db', k) {
      assert CoinRowOk(db, k);
    }
  }

  lemma CompleteKeepsCoins(db: Db, id: nat)
    requires CoinInv(db)
    ensures CoinInv(CompleteStay(db, id).0)
  {
    if CompleteStay(db, id).1 {
      QuietMoveKeepsCoins(db, CompleteStay(db, id).0, id, Completed);
    }
  }

  lemma AcceptKeepsCoins(db: Db, id: nat)
    requires CoinInv(db)
    ensures CoinInv(Commit(db, AdminAccept(db, id)))
  {
    if AdminAccept(db, id).Committed? {
      QuietMoveKeepsCoins(db, AdminAccept(db, id).db, id, Confirmed);
    }
  }

  lemma RefundKeepsCoins(db: Db, id: nat, payment: nat, requested: Option<int>)
    requires CoinInv(db)
    ensures CoinInv(Commit(db, AdminRefund(db, id, payment, requested)))
  {
    if AdminRefund(db, id, payment, requested).Committed? {
      QuietMoveKeepsCoins(db, AdminRefund(db, id, payment, requested).db, id, db.reservations[id].status);
    }
  }

  lemma NoShowKeepsCoins(db: Db, id: nat)
    requires CoinInv(db)
    ensures CoinInv(Commit(db, AdminNoShow(db, id)))
  {
    if AdminNoShow(db, id).Committed? {
      QuietMoveKeepsCoins(db, AdminNoShow(db, id).db, id, NoShow);
    }
  }

  /** Coin conservation survives every transaction. */
  lemma StepKeepsCoins(cfg: Config, db: Db, step: Step)
    requires CoinInv(db)
    ensures CoinInv(Apply(cfg, db, step))
  {
    match step
    case Create(req) => if CreateBooking(cfg, db, req).Committed? { CreateKeepsCoins(cfg, db, req); }
    case Expire(id) => if ExpireReservation(db, id).1 { ExpireKeepsCoins(db, id); }
    case Complete(id) => CompleteKeepsCoins(db, id);
    case CreditEarn(id) => EarnKeepsCoins(db, id);
    case Notify(n) => NotifyKeepsCoins(db, n);
    case Accept(id) => AcceptKeepsCoins(db, id);
    case Cancel(id, refund) => if AdminCancel(db, id, refund).Committed? { CancelKeepsCoins(db, id, refund); }
    case RefundPayment(id, p, requested) => RefundKeepsCoins(db, id, p, requested);
    case MarkNoShow(id) => NoShowKeepsCoins(db, id);
    case AdjustCoins(user, amount) => if AdjustBalance(db, user, amount).Some? { AdjustKeepsCoins(db, user, amount); }
    case _ => CoinlessKeeps(cfg, db, step);
  }
}
