/**
 * PaymentSessionsService: an attempt is prepared in one transaction, the provider is called with no
 * transaction open, and a second transaction publishes the session or fails the attempt. Anything
 * may commit during the call, so the second one judges again.
 */
module SessionOps {
  import opened Basics
  import opened Lifecycle
  import opened Tables
  import opened Transactions
  import opened Invariants
  import opened PaymentProofs
  import opened Runs
  import opened Storage
  import opened CoinOps
  import opened BookingOps
  import opened StaleWrites

  /** What the payment service answered while the transactions of `Gap` committed around the call. */
  datatype RemoteAnswer = SessionOpened | SessionRejected | TransportFailure

  class PaymentSessionsService {
    const cfg: Config
    const db: Database
    const bookings: BookingsService

    constructor (cfg: Config, db: Database)
      ensures this.cfg == cfg && this.db == db && Wired()
    {
      this.cfg, this.db := cfg, db;
      bookings := new BookingsService(cfg, db);
    }

    ghost predicate Wired() {
      bookings.db == db && bookings.Wired()
    }

    method PrepareAttempt(user: UserId, id: nat) returns (r: Reply<nat>)
      modifies db`payments
      ensures var spec := Transactions.PrepareAttempt(cfg, old(db.Snapshot()), user, id);
              && db.Snapshot() == Commit(old(db.Snapshot()), spec)
              && r == if spec.Committed? then Done(spec.value) else Thrown(spec.error)
    {
      if id >= |db.reservations| || db.reservations[id].user != user { return Thrown(NotFound); }
      var reservation := db.reservations[id];
      if !Payable(cfg, reservation, db.now) { return Thrown(Conflict); }
      var existing := FindLiveAttempt(db.payments, id);
      FindLiveAttemptSound(db.payments, id);
      var payment := existing;
      if existing.Some? {
        var attempt := db.payments[existing.value];
        if attempt.createdAt + cfg.staleAttemptMs <= db.now || reservation.totalAmount != attempt.amount {
          db.payments := db.payments[existing.value := attempt.(status := PaymentStatus.Failed)];
          payment := None;
        }
      }
      if payment.None? {
        payment := Some(|db.payments|);
        db.payments := db.payments + [Payment(id, reservation.totalAmount, reservation.currency, AttemptPending, false, db.now)];
      }
      return Done(payment.value);
    }

    method FailAttempt(payment: nat)
      modifies db`payments
      ensures db.Snapshot() == Transactions.FailAttempt(old(db.Snapshot()), payment)
    {
      if payment < |db.payments| && db.payments[payment].status == AttemptPending {
        db.payments := db.payments[payment := db.payments[payment].(status := PaymentStatus.Failed)];
      }
    }

    method PublishOrAbort(payment: nat) returns (published: bool)
      modifies db`payments
      ensures (db.Snapshot(), published) == Transactions.PublishOrAbort(cfg, old(db.Snapshot()), payment)
    {
      if payment >= |db.payments| || db.payments[payment].reservation >= |db.reservations| { return false; }
      var attempt := db.payments[payment];
      var eligible := attempt.status == AttemptPending && Payable(cfg, db.reservations[attempt.reservation], db.now);
      if !eligible {
        if attempt.status == AttemptPending {
          db.payments := db.payments[payment := attempt.(status := PaymentStatus.Failed)];
        }
        return false;
      }
      return true;
    }

    /** From the remote call on: `gap` is what other transactions commit while it is out. */
    method FinishSession(payment: nat, remote: RemoteAnswer, gap: seq<Step>) returns (r: Reply<nat>, ghost steps: seq<Step>)
      modifies db
      ensures db.Snapshot() == Run(cfg, old(db.Snapshot()), steps)
      ensures match remote
              case TransportFailure => r == Thrown(Conflict) && steps == gap
              case SessionRejected => r == Thrown(BadRequest) && steps == gap + [FailSession(payment)]
              case SessionOpened =>
                && steps == gap + [Publish(payment)]
                && r == (if Transactions.PublishOrAbort(cfg, Run(cfg, old(db.Snapshot()), gap), payment).1
                         then Done(payment) else Thrown(Conflict))
      ensures r.Done? ==> (db.Snapshot(), true) == Transactions.PublishOrAbort(cfg, Run(cfg, old(db.Snapshot()), gap), payment)
    {
      ghost var before := db.Snapshot();
      steps := gap;
      db.Restore(Run(cfg, db.Snapshot(), gap));
      if remote == TransportFailure { return Thrown(Conflict), steps; }
      if remote == SessionRejected {
        RunSnoc(cfg, before, steps, FailSession(payment));
        steps := steps + [FailSession(payment)];
        FailAttempt(payment);
        return Thrown(BadRequest), steps;
      }
      RunSnoc(cfg, before, steps, Publish(payment));
      steps := steps + [Publish(payment)];
      var published := PublishOrAbort(payment);
      if !published { return Thrown(Conflict), steps; }
      return Done(payment), steps;
    }

    /** The hold is extended before anything else; nothing comes between its reading and its writes here. */
    method ExtendFirst(user: UserId, id: nat) returns (r: Reply<Option<Time>>)
      requires Wired()
      modifies db
      ensures db.Snapshot() == Apply(cfg, old(db.Snapshot()), Extend(user, id))
      ensures r.Thrown? <==> Transactions.TryExtendHold(old(db.Snapshot()), user, id).RolledBack?
    {
      ImmediateWriteIsAtomic(cfg, db.Snapshot(), Extend(user, id));
      r := bookings.TryExtendHold(user, id, db.Snapshot());
    }

    /**
     * Opens a checkout. Whatever commits during the remote call, the whole is a run of transactions; a
     * session is handed out only when the last of them finds the prepared attempt still usable.
     */
    method CreateSession(user: UserId, id: nat, remote: RemoteAnswer, gap: seq<Step>)
      returns (r: Reply<nat>, ghost steps: seq<Step>)
      requires Wired()
      modifies db
      ensures db.Snapshot() == Run(cfg, old(db.Snapshot()), steps)
      ensures r.Done? ==>
                && remote == SessionOpened
                && HandsOut(cfg, old(db.Snapshot()), user, id, gap, r.value)
                && db.Snapshot() == AfterGap(cfg, old(db.Snapshot()), user, id, gap)
      ensures r.Thrown? && remote == SessionOpened ==>
                forall payment :: !HandsOut(cfg, old(db.Snapshot()), user, id, gap, payment)
    {
      ghost var before := db.Snapshot();
      RunOne(cfg, before, Extend(user, id));
      steps := [Extend(user, id)];
      var extended := ExtendFirst(user, id);
      if extended.Thrown? { return Thrown(extended.error), steps; }

      RunSnoc(cfg, before, steps, Prepare(user, id));
      steps := steps + [Prepare(user, id)];
      var prepared := PrepareAttempt(user, id);
      if prepared.Thrown? { return Thrown(prepared.error), steps; }

      ghost var rest;
      r, rest := FinishSession(prepared.value, remote, gap);
      RunAppend(cfg, before, steps, rest);
      steps := steps + rest;
    }
  }

  /** The conditions under which `payment` is handed out as a session of booking `id`. */
  ghost predicate HandsOut(cfg: Config, db: Db, user: UserId, id: nat, gap: seq<Step>, payment: nat) {
    var prepared := Transactions.PrepareAttempt(cfg, Run(cfg, db, [Extend(user, id)]), user, id);
    && prepared.Committed? && prepared.value == payment
    && Transactions.PublishOrAbort(cfg, AfterGap(cfg, db, user, id, gap), payment).1
  }

  /** `payment` is a usable session of booking `id`, and its only live attempt. */
  ghost predicate SessionOk(cfg: Config, s: Db, id: nat, payment: nat) {
    && payment < |s.payments| && id < |s.reservations|
    && s.payments[payment].reservation == id
    && s.payments[payment].status == AttemptPending
    && s.payments[payment].amount == s.reservations[id].totalAmount
    && s.reservations[id].status == PaymentPending
    && s.reservations[id].holdExpiresAt.Some? && s.reservations[id].holdExpiresAt.value > s.now + cfg.minHoldRemainingMs
    && forall q | 0 <= q < |s.payments| && q != payment && s.payments[q].reservation == id :: !LiveAttempt(s.payments[q])
  }

  lemma PublishedIsOk(cfg: Config, s: Db, id: nat, payment: nat)
    requires PaymentsOk(s.reservations, s.payments) && Transactions.PublishOrAbort(cfg, s, payment).1
    requires payment < |s.payments| && s.payments[payment].reservation == id
    ensures SessionOk(cfg, s, id, payment) && Apply(cfg, s, Publish(payment)) == s
  {}

  lemma PreparedIsOk(cfg: Config, db: Db, user: UserId, id: nat)
    requires Inv(db) && Transactions.PrepareAttempt(cfg, db, user, id).Committed?
    ensures var tx := Transactions.PrepareAttempt(cfg, db, user, id);
            Inv(tx.db) && tx.value < |tx.db.payments| && tx.db.payments[tx.value].reservation == id
  {
    PrepareYieldsTheLiveAttempt(cfg, db, user, id);
    StepKeepsInv(cfg, db, Prepare(user, id));
  }

  /** The tables publication finds after the gap. */
  function AfterGap(cfg: Config, db: Db, user: UserId, id: nat, gap: seq<Step>): Db {
    Run(cfg, Commit(Run(cfg, db, [Extend(user, id)]), Transactions.PrepareAttempt(cfg, Run(cfg, db, [Extend(user, id)]), user, id)), gap)
  }

  /**
   * However confirmations, failures, expiries and other sessions land between the phases, a session that
   * is handed out is for a pending attempt over the booking's total, of a booking whose hold still lasts,
   * and no other attempt of that booking is live.
   */
  lemma SessionIsSafe(cfg: Config, db: Db, user: UserId, id: nat, gap: seq<Step>, payment: nat)
    requires Inv(db) && HandsOut(cfg, db, user, id, gap, payment)
    ensures SessionOk(cfg, AfterGap(cfg, db, user, id, gap), id, payment)
    ensures Apply(cfg, AfterGap(cfg, db, user, id, gap), Publish(payment)) == AfterGap(cfg, db, user, id, gap)
  {
    RunOne(cfg, db, Extend(user, id));
    StepKeepsInv(cfg, db, Extend(user, id));
    var held := Run(cfg, db, [Extend(user, id)]);
    PreparedIsOk(cfg, held, user, id);
    RunOnKeepsInv(cfg, Transactions.PrepareAttempt(cfg, held, user, id).db, gap);
    PublishedIsOk(cfg, AfterGap(cfg, db, user, id, gap), id, payment);
  }
}
