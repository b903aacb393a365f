/** BookingMaintenanceService: the cron jobs, with the flags that keep a job from overlapping itself. */
module MaintenanceOps {
  import opened Tables
  import opened Transactions
  import opened Storage
  import opened BookingOps
  import opened IdempotencyOps
  import opened ExpiryQueue

  /** Stays completed and credited one after the other; those in `poisoned` throw and are passed over. */
  function CompleteAll(db: Db, ids: seq<nat>, poisoned: set<nat>): (Db, nat) {
    if |ids| == 0 then (db, 0)
    else
      var (before, count) := CompleteAll(db, ids[..|ids| - 1], poisoned);
      var id := ids[|ids| - 1];
      if id in poisoned || !CompleteStay(before, id).1 then (before, count)
      else (CompleteAndCredit(before, id), count + 1)
  }

  /** The transactions the expiry job commits for a list of candidates. */
  function ExpirySteps(ids: seq<nat>, poisoned: set<nat>): seq<Step> {
    if |ids| == 0 then []
    else ExpirySteps(ids[..|ids| - 1], poisoned) + if ids[|ids| - 1] in poisoned then [] else [Expire(ids[|ids| - 1])]
  }

  /** The job is a run of transactions, so all that holds along runs holds across its ticks. */
  lemma {:induction false} ExpiryJobIsARun(cfg: Config, db: Db, ids: seq<nat>, poisoned: set<nat>)
    ensures ExpireAll(db, ids, poisoned).0 == Run(cfg, db, ExpirySteps(ids, poisoned))
  {
    if |ids| > 0 {
      var front, id := ids[..|ids| - 1], ids[|ids| - 1];
      ExpiryJobIsARun(cfg, db, front, poisoned);
      NextCandidate(cfg, db, ids, poisoned);
      if id !in poisoned {
        RunSnoc(cfg, db, ExpirySteps(front, poisoned), Expire(id));
      }
    }
  }

  /** What the last candidate of a list adds to the job and to its run. */
  lemma NextCandidate(cfg: Config, db: Db, ids: seq<nat>, poisoned: set<nat>)
    requires |ids| > 0
    ensures var front, id := ids[..|ids| - 1], ids[|ids| - 1];
            if id in poisoned then
              && ExpireAll(db, ids, poisoned).0 == ExpireAll(db, front, poisoned).0
              && ExpirySteps(ids, poisoned) == ExpirySteps(front, poisoned)
            else
              && ExpireAll(db, ids, poisoned).0 == Apply(cfg, ExpireAll(db, front, poisoned).0, Expire(id))
              && ExpirySteps(ids, poisoned) == ExpirySteps(front, poisoned) + [Expire(id)]
  {}

  function CompletionSteps(db: Db, ids: seq<nat>, poisoned: set<nat>): seq<Step> {
    if |ids| == 0 then []
    else
      var front, id := ids[..|ids| - 1], ids[|ids| - 1];
      CompletionSteps(db, front, poisoned)
      + if id in poisoned || !CompleteStay(CompleteAll(db, front, poisoned).0, id).1 then [] else [Complete(id), CreditEarn(id)]
  }

  lemma {:induction false} CompletionJobIsARun(cfg: Config, db: Db, ids: seq<nat>, poisoned: set<nat>)
    ensures CompleteAll(db, ids, poisoned).0 == Run(cfg, db, CompletionSteps(db, ids, poisoned))
    ensures 2 * CompleteAll(db, ids, poisoned).1 == |CompletionSteps(db, ids, poisoned)|
  {
    if |ids| > 0 {
      var front, id := ids[..|ids| - 1], ids[|ids| - 1];
      CompletionJobIsARun(cfg, db, front, poisoned);
      var before, steps := CompleteAll(db, front, poisoned).0, CompletionSteps(db, front, poisoned);
      if id in poisoned || !CompleteStay(before, id).1 {
        assert CompletionSteps(db, ids, poisoned) == steps;
      } else {
        CompletionIsARun(cfg, before, id);
        RunAppend(cfg, db, steps, [Complete(id), CreditEarn(id)]);
      }
    }
  }

  class BookingMaintenanceService {
    var expiryRunning: bool
    var completionRunning: bool
    const db: Database
    const bookings: BookingsService
    const idempotency: BookingIdempotencyService

    constructor (cfg: Config, db: Database)
      ensures this.db == db && Wired() && bookings.cfg == cfg && !expiryRunning && !completionRunning
    {
      this.db := db;
      bookings := new BookingsService(cfg, db);
      idempotency := new BookingIdempotencyService(db);
      expiryRunning, completionRunning := false, false;
    }

    ghost predicate Wired() { bookings.db == db && bookings.Wired() && idempotency.db == db }

    /** Each candidate in its own transaction; one that throws is passed over. */
    method ExpireEach(candidates: seq<nat>, poisoned: set<nat>) returns (expired: nat)
      requires Wired()
      modifies db`reservations, db`holds, db`balances, db`ledger, db`history
      ensures (db.Snapshot(), expired) == ExpireAll(old(db.Snapshot()), candidates, poisoned)
    {
      expired := 0;
      for k := 0 to |candidates|
        invariant (db.Snapshot(), expired) == ExpireAll(old(db.Snapshot()), candidates[..k], poisoned)
      {
        assert candidates[..k + 1][..k] == candidates[..k];
        var done := ExpireOne(candidates[k], poisoned);
        if done {
          expired := expired + 1;
        }
      }
      assert candidates[..|candidates|] == candidates;
    }

    /** False also when the transaction throws, which has changed nothing. */
    method ExpireOne(id: nat, poisoned: set<nat>) returns (expired: bool)
      requires Wired()
      modifies db`reservations, db`holds, db`balances, db`ledger, db`history
      ensures (db.Snapshot(), expired)
              == if id in poisoned then (old(db.Snapshot()), false) else Transactions.ExpireReservation(old(db.Snapshot()), id)
    {
      if id in poisoned { return false; }
      expired := bookings.ExpireReservation(id);
    }

    /**
     * One tick. Bookings in `poisoned` throw, which leaves them for a later tick. A tick that finds the
     * previous one still at work does nothing; otherwise it returns exactly the number it expired, leaves
     * the rest of the queue in order, and hands the flag back.
     */
    method ExpireHolds(poisoned: set<nat>) returns (expired: nat)
      requires Wired()
      modifies this`expiryRunning, db`reservations, db`holds, db`balances, db`ledger, db`history
      ensures expiryRunning == old(expiryRunning)
      ensures old(expiryRunning) ==> expired == 0 && db.Snapshot() == old(db.Snapshot())
      ensures !old(expiryRunning) ==>
                && (db.Snapshot(), expired) == TickJob(old(db.Snapshot()), poisoned)
                && expired == |Reached(Queue(old(db.Snapshot())), poisoned)|
                && Queue(db.Snapshot()) == Drop(Queue(old(db.Snapshot())), Reached(Queue(old(db.Snapshot())), poisoned))
    {
      if expiryRunning { return 0; }
      expiryRunning := true;
      TickExact(db.Snapshot(), poisoned);
      expired := ExpireEach(Candidates(db.Snapshot()), poisoned);
      expiryRunning := false;
    }

    /** The daily job over the confirmed stays past their check-out. */
    method CompletePastStays(candidates: seq<nat>, poisoned: set<nat>) returns (completed: nat)
      requires Wired()
      modifies this`completionRunning, db`reservations, db`balances, db`ledger, db`history
      ensures completionRunning == old(completionRunning)
      ensures old(completionRunning) ==> completed == 0 && db.Snapshot() == old(db.Snapshot())
      ensures !old(completionRunning) ==>
                (db.Snapshot(), completed) == CompleteAll(old(db.Snapshot()), candidates, poisoned)
    {
      if completionRunning { return 0; }
      completionRunning := true;
      completed := 0;
      for k := 0 to |candidates|
        invariant (db.Snapshot(), completed) == CompleteAll(old(db.Snapshot()), candidates[..k], poisoned)
      {
        assert candidates[..k + 1][..k] == candidates[..k];
        if candidates[k] !in poisoned {
          var done := bookings.CompleteStay(candidates[k]);
          if done {
            completed := completed + 1;
          }
        }
      }
      assert candidates[..|candidates|] == candidates;
      completionRunning := false;
    }

    method CleanupIdempotencyKeys() returns (expired: nat, stale: nat)
      requires Wired()
      modifies db`claims
      ensures db.claims == Idempotency.Cleanup(old(db.claims), db.now)
      ensures expired + stale == |old(db.claims).rows| - |db.claims.rows|
    {
      expired, stale := idempotency.Cleanup(db.now);
    }
  }
}
