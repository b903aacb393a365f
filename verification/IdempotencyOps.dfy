/** BookingIdempotencyService: claim rows, changed in place. */
module IdempotencyOps {
  import opened Tables
  import opened Idempotency
  import opened Storage

  /** The unique index over (user, key), and ids that are never reused. */
  ghost predicate IndexHolds(t: ClaimTable) {
    && (forall id | id in t.rows :: id < t.nextId)
    && forall a, b | a in t.rows && b in t.rows && Names(t.rows[a], t.rows[b].user, t.rows[b].key) :: a == b
  }

  class BookingIdempotencyService {
    const db: Database

    constructor (db: Database)
      ensures this.db == db
    {
      this.db := db;
    }

    /** Inserts the claim row; a unique violation hands over to the existing row. */
    method Claim(user: UserId, key: nat, hash: Digest, now: Time) returns (r: ClaimResult)
      requires IndexHolds(db.claims)
      modifies db`claims
      ensures (db.claims, r) == ClaimKey(old(db.claims), user, key, hash, now)
      ensures IndexHolds(db.claims)
      ensures r.Acquired? <==> !Taken(old(db.claims), user, key)
      ensures !r.Acquired? ==> db.claims == old(db.claims)
      ensures r.Acquired? ==>
                && r.claimId !in old(db.claims).rows
                && db.claims.rows == old(db.claims).rows[r.claimId := Idempotency.Claim(user, key, hash, InProgress, now, now + 86_400_000)]
    {
      if exists id :: id in db.claims.rows && Names(db.claims.rows[id], user, key) {
        var id :| id in db.claims.rows && Names(db.claims.rows[id], user, key);
        assert id == Find(db.claims, user, key);
        return ResolveExistingClaim(db.claims.rows[id], hash);
      }
      var claimId := db.claims.nextId;
      db.claims := ClaimTable(db.claims.rows[claimId := NewClaim(user, key, hash, now)], claimId + 1);
      return Acquired(claimId);
    }

    function ResolveExistingClaim(existing: Idempotency.Claim, hash: Digest): (r: ClaimResult)
      ensures !r.Acquired?
      ensures r.Replay? <==> existing.hash == hash && existing.status == Completed(if r.Replay? then r.booking else 0)
      ensures r == DifferentRequest <==> existing.hash != hash
      ensures r == StillRunning <==> existing.hash == hash && existing.status == InProgress
      ensures r == Resolve(existing, hash)
    {
      if existing.hash != hash then DifferentRequest
      else match existing.status
           case Completed(booking) => Replay(booking)
           case InProgress => StillRunning
    }

    /** False is the failed update of a missing row, which rolls the surrounding transaction back. */
    method MarkCompleted(claimId: nat, booking: nat) returns (updated: bool)
      modifies db`claims
      ensures updated == Idempotency.MarkCompleted(old(db.claims), claimId, booking).Some?
      ensures updated ==> db.claims == Idempotency.MarkCompleted(old(db.claims), claimId, booking).value
      ensures !updated ==> db.claims == old(db.claims)
      ensures IndexHolds(old(db.claims)) ==> IndexHolds(db.claims)
    {
      if claimId !in db.claims.rows { return false; }
      var row := db.claims.rows[claimId];
      db.claims := db.claims.(rows := db.claims.rows[claimId := row.(status := Completed(booking))]);
      return true;
    }

    method Release(claimId: nat)
      modifies db`claims
      ensures db.claims == Idempotency.Release(old(db.claims), claimId)
      ensures IndexHolds(old(db.claims)) ==> IndexHolds(db.claims)
    {
      db.claims := db.claims.(rows := db.claims.rows - {claimId});
    }

    /** Two deletes, one per kind of dead row; each reports how many rows it removed. */
    method Cleanup(now: Time) returns (expired: nat, stale: nat)
      modifies db`claims
      ensures db.claims == Idempotency.Cleanup(old(db.claims), now)
      ensures expired + stale == |old(db.claims).rows| - |db.claims.rows|
      ensures forall id | id in db.claims.rows :: id in old(db.claims).rows && db.claims.rows[id] == old(db.claims).rows[id]
      ensures forall id | id in old(db.claims).rows ::
                var row := old(db.claims).rows[id];
                id !in db.claims.rows <==> if row.status == InProgress then row.createdAt + 300_000 < now else row.expiresAt < now
      ensures IndexHolds(old(db.claims)) ==> IndexHolds(db.claims)
    {
      SweepIsTwoDeletes(db.claims, now);
      var gone := ExpiredRows(db.claims.rows, now);
      db.claims := db.claims.(rows := db.claims.rows - gone);
      expired := |gone|;
      var dead := StaleRows(db.claims.rows, now);
      db.claims := db.claims.(rows := db.claims.rows - dead);
      stale := |dead|;
    }
  }

  function ExpiredRows(rows: map<nat, Idempotency.Claim>, now: Time): set<nat> {
    set id | id in rows && rows[id].status.Completed? && rows[id].expiresAt < now
  }

  function StaleRows(rows: map<nat, Idempotency.Claim>, now: Time): set<nat> {
    set id | id in rows && rows[id].status.InProgress? && rows[id].createdAt < now - IDEMPOTENCY_STALE_MS
  }

  /** Deleting the expired and then the stale rows is one sweep, and the two counts add up to what went. */
  lemma SweepIsTwoDeletes(t: ClaimTable, now: Time)
    ensures var gone := ExpiredRows(t.rows, now);
            var dead := StaleRows(t.rows - gone, now);
            && t.rows - gone - dead == Idempotency.Cleanup(t, now).rows
            && |gone| + |dead| == |t.rows| - |Idempotency.Cleanup(t, now).rows|
  {
    var gone := ExpiredRows(t.rows, now);
    var dead := StaleRows(t.rows - gone, now);
    assert t.rows - gone - dead == Idempotency.Cleanup(t, now).rows;
  }
}
