/** The hold-expiry job: which overdue bookings its ticks reach when some of them keep failing. */
module ExpiryQueue {
  import opened Basics
  import opened Lifecycle
  import opened Tables
  import opened Inventory
  import opened Transactions
  import opened Invariants
  import opened StaySteps

  const BATCH: nat := 100

  predicate Overdue(r: Reservation, now: Time) {
    r.status == PaymentPending && r.holdExpiresAt.Some? && r.holdExpiresAt.value < now
  }

  function ExpiryOf(rs: seq<Reservation>, id: nat): Time {
    if id < |rs| && rs[id].holdExpiresAt.Some? then rs[id].holdExpiresAt.value else 0
  }

  /** Puts an id before the first one whose hold expires later. */
  function InsertId(rs: seq<Reservation>, queue: seq<nat>, id: nat): seq<nat> {
    if |queue| == 0 || ExpiryOf(rs, id) < ExpiryOf(rs, queue[0]) then [id] + queue
    else [queue[0]] + InsertId(rs, queue[1..], id)
  }

  function QueueUpTo(rs: seq<Reservation>, now: Time, n: nat): seq<nat>
    requires n <= |rs|
  {
    if n == 0 then []
    else
      var queue := QueueUpTo(rs, now, n - 1);
      if Overdue(rs[n - 1], now) then InsertId(rs, queue, n - 1) else queue
  }

  /** Overdue bookings, longest overdue first. */
  function Queue(db: Db): seq<nat> { QueueUpTo(db.reservations, db.now, |db.reservations|) }

  /** What one tick sets out to expire. */
  function Candidates(db: Db): seq<nat> { Front(Queue(db)) }

  function Front(queue: seq<nat>): seq<nat> { queue[..Min(BATCH, |queue|)] }

  /** Expires the candidates one after the other; those in `poisoned` throw, which is logged and passed over. */
  function ExpireAll(db: Db, ids: seq<nat>, poisoned: set<nat>): (Db, nat) {
    if |ids| == 0 then (db, 0)
    else
      var (before, count) := ExpireAll(db, ids[..|ids| - 1], poisoned);
      var id := ids[|ids| - 1];
      if id in poisoned then (before, count)
      else
        var (after, expired) := ExpireReservation(before, id);
        (after, if expired then count + 1 else count)
  }

  /** One run of the job, and what it returns. */
  function TickJob(db: Db, poisoned: set<nat>): (Db, nat) { ExpireAll(db, Candidates(db), poisoned) }

  // ---- the queue as a list

  function Drop(queue: seq<nat>, gone: set<nat>): seq<nat> {
    if |queue| == 0 then []
    else if queue[0] in gone then Drop(queue[1..], gone)
    else [queue[0]] + Drop(queue[1..], gone)
  }

  lemma {:induction false} DropHolds(queue: seq<nat>, gone: set<nat>)
    ensures forall x :: x in Drop(queue, gone) <==> x in queue && x !in gone
    ensures |Drop(queue, gone)| <= |queue|
    ensures (exists x :: x in queue && x in gone) ==> |Drop(queue, gone)| < |queue|
    ensures (forall x | x in queue :: x !in gone) ==> Drop(queue, gone) == queue
  {
    if |queue| > 0 {
      DropHolds(queue[1..], gone);
      assert queue == [queue[0]] + queue[1..];
    }
  }

  ghost predicate SortedIds(rs: seq<Reservation>, queue: seq<nat>) {
    forall i, j | 0 <= i < j < |queue| :: ExpiryOf(rs, queue[i]) <= ExpiryOf(rs, queue[j])
  }

  ghost predicate DistinctIds(queue: seq<nat>) {
    forall i, j | 0 <= i < j < |queue| :: queue[i] != queue[j]
  }

  lemma {:induction false} InsertIdMembers(rs: seq<Reservation>, queue: seq<nat>, id: nat)
    ensures forall x :: x in InsertId(rs, queue, id) <==> x in queue || x == id
  {
    if |queue| > 0 && ExpiryOf(rs, id) >= ExpiryOf(rs, queue[0]) {
      InsertIdMembers(rs, queue[1..], id);
      assert queue == [queue[0]] + queue[1..];
    }
  }

  lemma {:induction false} InsertIdSorts(rs: seq<Reservation>, queue: seq<nat>, id: nat)
    requires SortedIds(rs, queue)
    ensures SortedIds(rs, InsertId(rs, queue, id))
  {
    if |queue| > 0 && ExpiryOf(rs, id) >= ExpiryOf(rs, queue[0]) {
      var rest := queue[1..];
      InsertIdSorts(rs, rest, id);
      InsertIdMembers(rs, rest, id);
      var r := InsertId(rs, rest, id);
      forall j | 0 <= j < |r| ensures ExpiryOf(rs, queue[0]) <= ExpiryOf(rs, r[j]) {
        assert r[j] in r;
      }
    }
  }

  lemma {:induction false} InsertIdKeepsDistinct(rs: seq<Reservation>, queue: seq<nat>, id: nat)
    requires DistinctIds(queue) && id !in queue
    ensures DistinctIds(InsertId(rs, queue, id))
  {
    if |queue| > 0 && ExpiryOf(rs, id) >= ExpiryOf(rs, queue[0]) {
      var rest := queue[1..];
      InsertIdKeepsDistinct(rs, rest, id);
      InsertIdMembers(rs, rest, id);
      var r := InsertId(rs, rest, id);
      forall j | 0 <= j < |r| ensures queue[0] != r[j] {
        assert r[j] in r;
      }
    }
  }

  /** The queue lists every overdue booking once, in order of expiry. */
  lemma {:induction false} QueueHolds(rs: seq<Reservation>, now: Time, n: nat)
    requires n <= |rs|
    ensures var queue := QueueUpTo(rs, now, n);
            && SortedIds(rs, queue) && DistinctIds(queue)
            && forall x: nat :: x in queue <==> x < n && Overdue(rs[x], now)
  {
    if n > 0 {
      QueueHolds(rs, now, n - 1);
      if Overdue(rs[n - 1], now) {
        InsertIdMembers(rs, QueueUpTo(rs, now, n - 1), n - 1);
        InsertIdSorts(rs, QueueUpTo(rs, now, n - 1), n - 1);
        InsertIdKeepsDistinct(rs, QueueUpTo(rs, now, n - 1), n - 1);
      }
    }
  }

  lemma FrontExpiresFirst(rs: seq<Reservation>, queue: seq<nat>, x: nat, y: nat)
    requires SortedIds(rs, queue) && x in Front(queue) && y in queue && y !in Front(queue)
    ensures ExpiryOf(rs, x) <= ExpiryOf(rs, y)
  {
    var i :| 0 <= i < |Front(queue)| && Front(queue)[i] == x;
    var j :| 0 <= j < |queue| && queue[j] == y;
    assert queue[i] == x;
    assert forall k | 0 <= k < |Front(queue)| :: queue[k] in Front(queue);
  }

  /** The job looks for pending bookings whose expiry is in the past, and takes the hundred that expired first. */
  lemma CandidatesAreTheLongestOverdue(db: Db, x: nat)
    ensures |Candidates(db)| == Min(100, |Queue(db)|)
    ensures x in Queue(db) <==>
              && x < |db.reservations| && db.reservations[x].status == PaymentPending
              && db.reservations[x].holdExpiresAt.Some? && db.reservations[x].holdExpiresAt.value < db.now
    ensures x in Candidates(db) ==>
              x in Queue(db) && forall y | y in Queue(db) && y !in Candidates(db) :: ExpiryOf(db.reservations, x) <= ExpiryOf(db.reservations, y)
  {
    var rs, queue := db.reservations, Queue(db);
    QueueHolds(rs, db.now, |rs|);
    if x in Candidates(db) {
      forall y | y in queue && y !in Candidates(db) ensures ExpiryOf(rs, x) <= ExpiryOf(rs, y) {
        FrontExpiresFirst(rs, queue, x, y);
      }
    }
  }

  lemma {:induction false} DropInsert(rs: seq<Reservation>, queue: seq<nat>, id: nat, gone: set<nat>)
    requires SortedIds(rs, queue)
    ensures Drop(InsertId(rs, queue, id), gone)
            == if id in gone then Drop(queue, gone) else InsertId(rs, Drop(queue, gone), id)
  {
    if |queue| > 0 {
      var rest := queue[1..];
      assert forall i | 0 <= i < |rest| :: rest[i] == queue[i + 1];
      if ExpiryOf(rs, id) < ExpiryOf(rs, queue[0]) {
        assert ([id] + queue)[1..] == queue;
        DropHolds(queue, gone);
        if |Drop(queue, gone)| > 0 {
          assert Drop(queue, gone)[0] in Drop(queue, gone);
        }
      } else {
        DropInsert(rs, rest, id, gone);
        assert ([queue[0]] + InsertId(rs, rest, id))[1..] == InsertId(rs, rest, id);
        if queue[0] !in gone {
          assert ([queue[0]] + Drop(rest, gone))[1..] == Drop(rest, gone);
        }
      }
    } else {
      assert [id][1..] == [];
    }
  }

  /** Expiring some bookings takes exactly them out of the queue and keeps the order of the others. */
  lemma {:induction false} QueueAfter(rs: seq<Reservation>, rs': seq<Reservation>, now: Time, gone: set<nat>, n: nat)
    requires |rs'| == |rs| && n <= |rs|
    requires forall k | 0 <= k < |rs| ::
               && rs'[k].holdExpiresAt == rs[k].holdExpiresAt
               && (Overdue(rs'[k], now) <==> Overdue(rs[k], now) && k !in gone)
    ensures QueueUpTo(rs', now, n) == Drop(QueueUpTo(rs, now, n), gone)
  {
    if n > 0 {
      QueueAfter(rs, rs', now, gone, n - 1);
      QueueHolds(rs, now, n - 1);
      DropInsert(rs, QueueUpTo(rs, now, n - 1), n - 1, gone);
      SameExpiries(rs, rs', Drop(QueueUpTo(rs, now, n - 1), gone), n - 1);
    }
  }

  lemma {:induction false} SameExpiries(rs: seq<Reservation>, rs': seq<Reservation>, queue: seq<nat>, id: nat)
    requires |rs'| == |rs| && forall k | 0 <= k < |rs| :: rs'[k].holdExpiresAt == rs[k].holdExpiresAt
    ensures InsertId(rs', queue, id) == InsertId(rs, queue, id)
  {
    if |queue| > 0 {
      SameExpiries(rs, rs', queue[1..], id);
    }
  }

  /** Healthy bookings among the candidates. */
  function Reached(queue: seq<nat>, poisoned: set<nat>): set<nat> {
    Healthy(Front(queue), poisoned)
  }

  // ---- one tick on the tables

  /** `gone` have expired; every other booking is as it was. */
  ghost predicate Expiring(db: Db, db': Db, gone: set<nat>) {
    && db'.now == db.now && |db'.reservations| == |db.reservations|
    && forall k | 0 <= k < |db.reservations| ::
         if k in gone then db'.reservations[k] == db.reservations[k].(status := Expired)
         else db'.reservations[k] == db.reservations[k]
  }

  lemma ExpireOne(db: Db, db': Db, gone: set<nat>, id: nat)
    requires Expiring(db, db', gone) && id < |db.reservations| && Overdue(db.reservations[id], db.now) && id !in gone
    ensures ExpireReservation(db', id).1
    ensures Expiring(db, ExpireReservation(db', id).0, gone + {id})
  {}

  function Healthy(ids: seq<nat>, poisoned: set<nat>): set<nat> {
    set x | x in ids && x !in poisoned
  }

  lemma HealthySnoc(ids: seq<nat>, poisoned: set<nat>, id: nat)
    requires id !in ids
    ensures Healthy(ids + [id], poisoned) == if id in poisoned then Healthy(ids, poisoned) else Healthy(ids, poisoned) + {id}
    ensures |Healthy(ids + [id], poisoned)| == |Healthy(ids, poisoned)| + if id in poisoned then 0 else 1
  {
    var after, before := Healthy(ids + [id], poisoned), Healthy(ids, poisoned);
    assert forall x :: x in ids + [id] <==> x in ids || x == id;
    if id in poisoned {
      assert after == before;
    } else {
      assert after == before + {id};
    }
  }

  lemma {:induction false} ExpireAllReaches(db: Db, ids: seq<nat>, poisoned: set<nat>)
    requires DistinctIds(ids) && forall x | x in ids :: x < |db.reservations| && Overdue(db.reservations[x], db.now)
    ensures var (db', count) := ExpireAll(db, ids, poisoned);
            Expiring(db, db', Healthy(ids, poisoned)) && count == |Healthy(ids, poisoned)|
  {
    if |ids| == 0 {
      assert Healthy(ids, poisoned) == {};
    } else {
      var front, id := ids[..|ids| - 1], ids[|ids| - 1];
      assert ids == front + [id];
      ExpireAllReaches(db, front, poisoned);
      HealthySnoc(front, poisoned, id);
      if id !in poisoned {
        ExpireOne(db, ExpireAll(db, front, poisoned).0, Healthy(front, poisoned), id);
      }
    }
  }

  /** A tick expires exactly the healthy candidates, returns their number, and leaves the rest queued in order. */
  lemma TickExact(db: Db, poisoned: set<nat>)
    ensures var (db', count) := TickJob(db, poisoned);
            && Expiring(db, db', Reached(Queue(db), poisoned))
            && count == |Reached(Queue(db), poisoned)|
            && Queue(db') == Drop(Queue(db), Reached(Queue(db), poisoned))
            && (count > 0 <==> |Queue(db')| < |Queue(db)|)
            && (count == 0 ==> Queue(db') == Queue(db))
  {
    var queue, ids := Queue(db), Candidates(db);
    QueueHolds(db.reservations, db.now, |db.reservations|);
    assert forall x | x in ids :: x in queue;
    ExpireAllReaches(db, ids, poisoned);
    var gone := Reached(queue, poisoned);
    assert gone == Healthy(ids, poisoned);
    var (db', count) := TickJob(db, poisoned);
    forall k | 0 <= k < |db.reservations|
      ensures Overdue(db'.reservations[k], db.now) <==> Overdue(db.reservations[k], db.now) && k !in gone {}
    QueueAfter(db.reservations, db'.reservations, db.now, gone, |db.reservations|);
    DropHolds(queue, gone);
  }

  // ---- ticks until nothing moves

  /** The tables after the job has been run until a run expires nothing. */
  function Drain(db: Db, poisoned: set<nat>): Db
    decreases |Queue(db)|
  {
    var (db', count) := TickJob(db, poisoned);
    TickExact(db, poisoned);
    if count == 0 then db' else Drain(db', poisoned)
  }

  /** Poisoned ids ahead of `x`. */
  function PoisonAhead(queue: seq<nat>, poisoned: set<nat>, x: nat): nat {
    if |queue| == 0 || queue[0] == x then 0
    else (if queue[0] in poisoned then 1 else 0) + PoisonAhead(queue[1..], poisoned, x)
  }

  lemma {:induction false} DropKeepsPoisonAhead(queue: seq<nat>, poisoned: set<nat>, gone: set<nat>, x: nat)
    requires gone !! poisoned && x !in gone
    ensures PoisonAhead(Drop(queue, gone), poisoned, x) == PoisonAhead(queue, poisoned, x)
  {
    if |queue| > 0 {
      DropKeepsPoisonAhead(queue[1..], poisoned, gone, x);
      if queue[0] !in gone {
        assert ([queue[0]] + Drop(queue[1..], gone))[1..] == Drop(queue[1..], gone);
      }
    }
  }

  lemma {:induction false} PoisonAheadBelowIndex(queue: seq<nat>, poisoned: set<nat>, x: nat, m: nat)
    requires m <= |queue| && x in queue[..m]
    ensures PoisonAhead(queue, poisoned, x) < m
  {
    if queue[0] != x {
      assert queue[..m] == [queue[0]] + queue[1..][..m - 1];
      PoisonAheadBelowIndex(queue[1..], poisoned, x, m - 1);
    }
  }

  lemma {:induction false} PoisonFillsFront(queue: seq<nat>, poisoned: set<nat>, x: nat, m: nat)
    requires m <= |queue| && x !in queue[..m]
    requires forall y | y in queue[..m] :: y in poisoned
    ensures PoisonAhead(queue, poisoned, x) >= m
  {
    if m > 0 {
      assert queue[..m] == [queue[0]] + queue[1..][..m - 1];
      assert queue[0] in queue[..m];
      PoisonFillsFront(queue[1..], poisoned, x, m - 1);
    }
  }

  lemma {:induction false} PoisonAheadAtMostAll(queue: seq<nat>, poisoned: set<nat>, x: nat)
    requires DistinctIds(queue)
    ensures PoisonAhead(queue, poisoned, x) <= |poisoned|
  {
    if |queue| > 0 && queue[0] != x {
      var rest := queue[1..];
      assert forall i | 0 <= i < |rest| :: rest[i] == queue[i + 1];
      if queue[0] in poisoned {
        RemoveIrrelevant(rest, poisoned, queue[0], x);
        PoisonAheadAtMostAll(rest, poisoned - {queue[0]}, x);
      } else {
        PoisonAheadAtMostAll(rest, poisoned, x);
      }
    }
  }

  lemma {:induction false} RemoveIrrelevant(queue: seq<nat>, poisoned: set<nat>, y: nat, x: nat)
    requires y !in queue
    ensures PoisonAhead(queue, poisoned - {y}, x) == PoisonAhead(queue, poisoned, x)
  {
    if |queue| > 0 {
      RemoveIrrelevant(queue[1..], poisoned, y, x);
    }
  }

  /** A booking is still overdue when the ticks have run dry exactly when it is poisoned, or a full batch of poison is ahead of it. */
  lemma {:induction false} DrainLeavesExactly(db: Db, poisoned: set<nat>, x: nat)
    requires x in Queue(db)
    ensures x in Queue(Drain(db, poisoned)) <==> x in poisoned || PoisonAhead(Queue(db), poisoned, x) >= BATCH
    decreases |Queue(db)|
  {
    var queue := Queue(db);
    var (db', count) := TickJob(db, poisoned);
    var gone := Reached(queue, poisoned);
    var m := Min(BATCH, |queue|);
    TickExact(db, poisoned);
    DropHolds(queue, gone);
    if x in gone {
      PoisonAheadBelowIndex(queue, poisoned, x, m);
      assert count > 0 by { assert gone != {}; }
      DrainAddsNothing(db', poisoned, x);
    } else {
      DropKeepsPoisonAhead(queue, poisoned, gone, x);
      if count > 0 {
        DrainLeavesExactly(db', poisoned, x);
      } else if x !in poisoned {
        assert gone == {};
        assert forall y | y in Front(queue) :: y in poisoned by {
          forall y | y in Front(queue) ensures y in poisoned { assert y !in gone; }
        }
        PoisonFillsFront(queue, poisoned, x, m);
        assert queue[..|queue|] == queue;
      }
    }
  }

  /** While fewer than a batch of bookings fail, a tick that finds a healthy overdue booking expires something. */
  lemma TickMakesProgress(db: Db, poisoned: set<nat>, x: nat)
    requires |poisoned| < BATCH && x in Queue(db) && x !in poisoned
    ensures TickJob(db, poisoned).1 > 0
  {
    var queue := Queue(db);
    var m := Min(BATCH, |queue|);
    QueueHolds(db.reservations, db.now, |db.reservations|);
    TickExact(db, poisoned);
    assert queue[..|queue|] == queue;
    PoisonAheadAtMostAll(queue, poisoned, x);
    if forall y | y in Front(queue) :: y in poisoned {
      PoisonFillsFront(queue, poisoned, x, m);
    } else {
      var y :| y in Front(queue) && y !in poisoned;
      assert y in Reached(queue, poisoned);
    }
  }

  lemma {:induction false} DrainAddsNothing(db: Db, poisoned: set<nat>, x: nat)
    requires x !in Queue(db)
    ensures x !in Queue(Drain(db, poisoned))
    decreases |Queue(db)|
  {
    var (db', count) := TickJob(db, poisoned);
    TickExact(db, poisoned);
    DropHolds(Queue(db), Reached(Queue(db), poisoned));
    if count > 0 {
      DrainAddsNothing(db', poisoned, x);
    }
  }

  /** What leaves the queue is EXPIRED, and a consistent state stays consistent. */
  lemma {:induction false} DrainExpires(db: Db, poisoned: set<nat>, x: nat)
    requires StayInv(db) && x < |db.reservations| && Overdue(db.reservations[x], db.now)
    ensures var s := Drain(db, poisoned);
            && StayInv(s) && s.now == db.now && |s.reservations| == |db.reservations|
            && (Overdue(s.reservations[x], s.now) || s.reservations[x].status == Expired)
    decreases |Queue(db)|
  {
    var (db', count) := TickJob(db, poisoned);
    TickExact(db, poisoned);
    ExpireAllKeepsStays(db, Candidates(db), poisoned);
    if count > 0 {
      if Overdue(db'.reservations[x], db'.now) {
        DrainExpires(db', poisoned, x);
      } else {
        DrainKeepsExpired(db', poisoned, x);
      }
    }
  }

  lemma {:induction false} DrainKeepsExpired(db: Db, poisoned: set<nat>, x: nat)
    requires StayInv(db) && x < |db.reservations| && db.reservations[x].status == Expired
    ensures var s := Drain(db, poisoned);
            StayInv(s) && s.now == db.now && |s.reservations| == |db.reservations| && s.reservations[x].status == Expired
    decreases |Queue(db)|
  {
    var (db', count) := TickJob(db, poisoned);
    TickExact(db, poisoned);
    ExpireAllKeepsStays(db, Candidates(db), poisoned);
    if count > 0 {
      DrainKeepsExpired(db', poisoned, x);
    }
  }

  lemma {:induction false} ExpireAllKeepsStays(db: Db, ids: seq<nat>, poisoned: set<nat>)
    requires StayInv(db)
    ensures StayInv(ExpireAll(db, ids, poisoned).0)
  {
    if |ids| > 0 {
      var front, id := ids[..|ids| - 1], ids[|ids| - 1];
      ExpireAllKeepsStays(db, front, poisoned);
      StepKeepsStays(Config(0, 0, 0), ExpireAll(db, front, poisoned).0, Expire(id));
    }
  }

  /**
   * Repeated ticks end, and then an overdue booking is EXPIRED with its holds gone exactly when it does
   * not itself fail and fewer than a batch of failing ones expired before it.
   */
  lemma DrainExpiresExactly(db: Db, poisoned: set<nat>, x: nat)
    requires StayInv(db) && x < |db.reservations| && Overdue(db.reservations[x], db.now)
    ensures var s := Drain(db, poisoned);
            && |s.reservations| == |db.reservations|
            && (s.reservations[x].status == Expired <==> x !in poisoned && PoisonAhead(Queue(db), poisoned, x) < BATCH)
            && (s.reservations[x].status == Expired ==> HoldsOf(s.holds, x) == [])
  {
    var s := Drain(db, poisoned);
    QueueHolds(db.reservations, db.now, |db.reservations|);
    DrainLeavesExactly(db, poisoned, x);
    DrainExpires(db, poisoned, x);
    QueueHolds(s.reservations, s.now, |s.reservations|);
    assert HoldRowsMatch(s.reservations, s.holds, x);
  }

  /** With fewer than a batch of failing bookings every other overdue one is expired in the end. */
  lemma FewFailuresDrain(db: Db, poisoned: set<nat>, x: nat)
    requires StayInv(db) && x < |db.reservations| && Overdue(db.reservations[x], db.now)
    requires |poisoned| < BATCH && x !in poisoned
    ensures var s := Drain(db, poisoned);
            |s.reservations| == |db.reservations| && s.reservations[x].status == Expired && HoldsOf(s.holds, x) == []
  {
    QueueHolds(db.reservations, db.now, |db.reservations|);
    PoisonAheadAtMostAll(Queue(db), poisoned, x);
    DrainExpiresExactly(db, poisoned, x);
  }
}
