/** What holds after any number of transactions from an opened, empty hotel. */
module Runs {
  import opened Lifecycle
  import opened Tables
  import opened Inventory
  import opened Transactions
  import opened Invariants
  import opened StayProofs
  import opened StaySteps
  import opened Capacity
  import opened PaymentProofs
  import opened CoinProofs
  import opened TrailProofs

  lemma StepKeepsInv(cfg: Config, db: Db, step: Step)
    requires Inv(db)
    ensures Inv(Apply(cfg, db, step))
  {
    StepKeepsStays(cfg, db, step);
    StepKeepsPaymentInv(cfg, db, step);
    StepKeepsCoins(cfg, db, step);
    StepKeepsTrails(cfg, db, step);
  }

  lemma InitialInv(db: Db)
    requires Initial(db)
    ensures Inv(db) && NoOversell(db) && HoldBoundOk(db.now, db.reservations)
  {}

  /** Every reachable state satisfies every aspect of the invariant, whatever order the steps come in. */
  lemma {:induction false} RunKeepsInv(cfg: Config, db: Db, steps: seq<Step>)
    requires Initial(db)
    ensures Inv(Run(cfg, db, steps))
  {
    if |steps| == 0 {
      InitialInv(db);
    } else {
      RunKeepsInv(cfg, db, steps[..|steps| - 1]);
      StepKeepsInv(cfg, Run(cfg, db, steps[..|steps| - 1]), steps[|steps| - 1]);
    }
  }

  /** Whatever commits after a consistent state, the invariants hold, and no terms or amounts are rewritten. */
  lemma {:induction false} RunOnKeepsInv(cfg: Config, db: Db, steps: seq<Step>)
    requires Inv(db)
    ensures var later := Run(cfg, db, steps);
            Inv(later) && AllTermsKept(db.reservations, later.reservations) && AmountsKept(db.payments, later.payments)
  {
    if |steps| > 0 {
      var before, last := Run(cfg, db, steps[..|steps| - 1]), steps[|steps| - 1];
      RunOnKeepsInv(cfg, db, steps[..|steps| - 1]);
      StepKeepsInv(cfg, before, last);
      StepKeepsTerms(cfg, before, last);
      StepKeepsAmounts(cfg, before, last);
      forall id | 0 <= id < |db.reservations| ensures TermsKept(db.reservations[id], Run(cfg, db, steps).reservations[id]) {
        assert TermsKept(before.reservations[id], Run(cfg, db, steps).reservations[id]);
      }
    }
  }

  // ---- rooms

  /** The counter and the hold rows of a night say what the reservations say. */
  ghost predicate RoomsAgree(s: Db, slot: Slot)
    requires slot in s.inventory
  {
    && s.inventory[slot].soldRooms == SoldBy(s.reservations, slot)
    && ActiveHoldQuantity(s.holds, s.reservations, slot, s.now) == HeldBy(s.reservations, slot, s.now)
    && FreeRooms(s, slot, s.now)
       == s.inventory[slot].totalRooms - s.inventory[slot].blockedRooms
          - SoldBy(s.reservations, slot) - HeldBy(s.reservations, slot, s.now)
  }

  lemma InvRooms(s: Db, slot: Slot)
    requires Inv(s) && slot in s.inventory
    ensures RoomsAgree(s, slot)
    ensures forall id | 0 <= id < |s.reservations| :: HoldsOf(s.holds, id) == ExpectedHolds(id, s.reservations[id])
  {
    FreeIsCapacityLeft(s, slot, s.now);
    ActiveHoldsAreLiveDemand(s, slot, s.now);
    forall id | 0 <= id < |s.reservations| ensures HoldsOf(s.holds, id) == ExpectedHolds(id, s.reservations[id]) {
      assert HoldRowsMatch(s.reservations, s.holds, id);
    }
  }

  /** The counter and the hold rows are two views of the reservations, after any run. */
  lemma SoldCounterRefinesReservations(cfg: Config, db: Db, steps: seq<Step>, slot: Slot)
    requires Initial(db) && slot in Run(cfg, db, steps).inventory
    ensures RoomsAgree(Run(cfg, db, steps), slot)
    ensures var s := Run(cfg, db, steps);
            forall id | 0 <= id < |s.reservations| :: HoldsOf(s.holds, id) == ExpectedHolds(id, s.reservations[id])
  {
    RunKeepsInv(cfg, db, steps);
    InvRooms(Run(cfg, db, steps), slot);
  }

  /** Creation writes one item and nothing rewrites it: no reachable booking has two. */
  lemma RunBooksOneItem(cfg: Config, db: Db, steps: seq<Step>, id: nat)
    requires Initial(db) && id < |Run(cfg, db, steps).reservations|
    ensures |Run(cfg, db, steps).reservations[id].items| == 1
  {
    RunKeepsInv(cfg, db, steps);
    assert RowOk(Run(cfg, db, steps).inventory, Run(cfg, db, steps).reservations, id);
  }

  /** Extensions and acceptances of lapsed holds find their rooms still free; nothing else is asked. */
  ghost predicate GuardedRun(cfg: Config, db: Db, steps: seq<Step>) {
    if |steps| == 0 then true
    else GuardedRun(cfg, db, steps[..|steps| - 1])
         && Guarded(Run(cfg, db, steps[..|steps| - 1]), steps[|steps| - 1])
  }

  /** Every state along the run has a free count of at least zero on every night. */
  ghost predicate NeverOversells(cfg: Config, db: Db, steps: seq<Step>) {
    if |steps| == 0 then NoOversell(db)
    else NeverOversells(cfg, db, steps[..|steps| - 1]) && NoOversell(Run(cfg, db, steps))
  }

  /** A run stays within its rooms all along exactly when every revived hold had its rooms. */
  lemma {:induction false} RunOversellsExactly(cfg: Config, db: Db, steps: seq<Step>)
    requires Initial(db)
    ensures NeverOversells(cfg, db, steps) <==> GuardedRun(cfg, db, steps)
    ensures NeverOversells(cfg, db, steps) ==> NoOversell(Run(cfg, db, steps))
  {
    if |steps| == 0 {
      InitialInv(db);
    } else {
      var front, last := steps[..|steps| - 1], steps[|steps| - 1];
      RunOversellsExactly(cfg, db, front);
      RunKeepsInv(cfg, db, front);
      if NeverOversells(cfg, db, front) {
        StepKeepsCapacity(cfg, Run(cfg, db, front), last);
      }
    }
  }

  // ---- money

  /** No double charge, no lost charge, no over-refund, one live attempt. */
  ghost predicate ChargedOnce(s: Db, p: nat, q: nat)
    requires p < |s.payments| && q < |s.payments|
  {
    && s.payments[p].reservation < |s.reservations|
    && s.payments[p].amount == s.reservations[s.payments[p].reservation].totalAmount
    && (s.payments[p].status == Captured ==>
          s.payments[p].refundRequired || s.reservations[s.payments[p].reservation].confirmedAt.Some?)
    && 0 <= RefundedSum(s.refunds, p) <= s.payments[p].amount
    && (p != q && s.payments[p].reservation == s.payments[q].reservation ==>
          !(KeptCharge(s.payments[p]) && KeptCharge(s.payments[q]))
          && !(LiveAttempt(s.payments[p]) && LiveAttempt(s.payments[q])))
  }

  lemma RunChargesOnce(cfg: Config, db: Db, steps: seq<Step>, p: nat, q: nat)
    requires Initial(db)
    requires p < |Run(cfg, db, steps).payments| && q < |Run(cfg, db, steps).payments|
    ensures ChargedOnce(Run(cfg, db, steps), p, q)
  {
    RunKeepsInv(cfg, db, steps);
  }

  // ---- coins

  /** A balance is its ledger, and a reservation's coin rows net to what its trail says. */
  ghost predicate CoinsAgree(s: Db, user: UserId, id: nat)
    requires user in s.balances && id < |s.reservations|
  {
    var r := s.reservations[id];
    && s.balances[user] == UserTotal(s.ledger, user) && s.balances[user] >= 0
    && (LatestBalance(s.ledger, user).Some? ==> LatestBalance(s.ledger, user).value == s.balances[user])
    && KindTotal(s.ledger, id, Redeem) + KindTotal(s.ledger, id, RedeemRefund)
       == (if WasReleased(s.history, id) then 0 else -r.coinsRedeemed)
    && KindCount(s.ledger, id, RedeemRefund) <= 1
    && KindCount(s.ledger, id, Earn) <= 1
    && KindTotal(s.ledger, id, Earn) == (if r.coinsEarnedAt.Some? && r.coinsEarnable > 0 then r.coinsEarnable else 0)
    && (r.coinsEarnedAt.Some? ==> r.status == Completed)
  }

  lemma InvCoins(s: Db, user: UserId, id: nat)
    requires Inv(s) && user in s.balances && id < |s.reservations|
    ensures CoinsAgree(s, user, id)
  {
    assert CoinRowOk(s, id);
  }

  /** Balances are the ledger, and each reservation's coin rows net to what its trail says, after any run. */
  lemma RunConservesCoins(cfg: Config, db: Db, steps: seq<Step>, user: UserId, id: nat)
    requires Initial(db)
    requires user in Run(cfg, db, steps).balances && id < |Run(cfg, db, steps).reservations|
    ensures CoinsAgree(Run(cfg, db, steps), user, id)
  {
    RunKeepsInv(cfg, db, steps);
    InvCoins(Run(cfg, db, steps), user, id);
  }

  // ---- audit trail

  /** The trail replays to the present status in at most three real changes, confirming at most once. */
  ghost predicate TrailReplays(s: Db, id: nat)
    requires id < |s.reservations|
  {
    var trail := Trail(s.history, id);
    && Walk(trail, PaymentPending, s.reservations[id].status)
    && Changes(trail) <= 3
    && Arrivals(trail, Confirmed) <= 1
    && forall i, j | 0 <= i < j < |trail| && trail[i].to == Confirmed :: trail[j].to != Expired
  }

  lemma InvTrail(s: Db, id: nat)
    requires Inv(s) && id < |s.reservations|
    ensures TrailReplays(s, id)
  {
    var trail, end := Trail(s.history, id), s.reservations[id].status;
    assert TrailOk(s, id);
    WalkChangesBounded(trail, PaymentPending, end);
    WalkArrivesOnce(trail, PaymentPending, end, Confirmed);
    forall i, j | 0 <= i < j < |trail| && trail[i].to == Confirmed ensures trail[j].to != Expired {
      WalkNeverExpiresAfterConfirm(trail, PaymentPending, end, i, j);
    }
  }

  lemma RunTrailReplays(cfg: Config, db: Db, steps: seq<Step>, id: nat)
    requires Initial(db) && id < |Run(cfg, db, steps).reservations|
    ensures TrailReplays(Run(cfg, db, steps), id)
  {
    RunKeepsInv(cfg, db, steps);
    InvTrail(Run(cfg, db, steps), id);
  }

  // ---- hold lifetime

  lemma {:induction false} RunKeepsHoldBound(cfg: Config, db: Db, steps: seq<Step>)
    requires Initial(db) && cfg.holdTtlMs <= MAX_HOLD_MS
    ensures HoldBoundOk(Run(cfg, db, steps).now, Run(cfg, db, steps).reservations)
  {
    if |steps| > 0 {
      RunKeepsHoldBound(cfg, db, steps[..|steps| - 1]);
      StepKeepsHoldBound(cfg, Run(cfg, db, steps[..|steps| - 1]), steps[|steps| - 1]);
    }
  }

  /** However often a guest extends, a pending hold never shrinks, never passes an hour, and its rows agree. */
  lemma RunHoldLifetime(cfg: Config, db: Db, steps: seq<Step>, next: Step, id: nat)
    requires Initial(db) && cfg.holdTtlMs <= MAX_HOLD_MS
    requires id < |Run(cfg, db, steps).reservations| && Run(cfg, db, steps).reservations[id].status == PaymentPending
    ensures var s := Run(cfg, db, steps);
            var r := s.reservations[id];
            && r.holdExpiresAt.Some? && r.holdExpiresAt.value <= r.createdAt + MAX_HOLD_MS
            && (forall i | 0 <= i < |HoldsOf(s.holds, id)| :: HoldsOf(s.holds, id)[i].expiresAt == r.holdExpiresAt.value)
            && var s' := Apply(cfg, s, next);
               id < |s'.reservations|
               && (s'.reservations[id].status == PaymentPending ==>
                     s'.reservations[id].holdExpiresAt.Some?
                     && s'.reservations[id].holdExpiresAt.value >= r.holdExpiresAt.value)
  {
    var s := Run(cfg, db, steps);
    RunKeepsInv(cfg, db, steps);
    RunKeepsHoldBound(cfg, db, steps);
    assert RowOk(s.inventory, s.reservations, id) && HoldRowsMatch(s.reservations, s.holds, id);
    StepKeepsTerms(cfg, s, next);
    if Apply(cfg, s, next).reservations[id].status == PaymentPending {
      HoldNeverShrinks(cfg, s, next, id);
    }
  }
}
