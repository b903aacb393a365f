/**
 * The in-memory fixed-window rate limiter, and what its windows allow over any sequence of calls: at most the
 * limit in a window of a bucket, and less than twice the limit in any stretch of a window's length.
 */
module RateLimit {
  import opened Tables

  type Key = string

  datatype Bucket = Bucket(count: int, resetAt: Time)

  datatype Verdict = Remaining(attempts: int) | TooMany(retryAfterSec: int)

  function CeilSeconds(ms: int): int { (ms + 999) / 1000 }

  /** What one call leaves in the bucket map, and what it answers. */
  function ConsumeAt(buckets: map<Key, Bucket>, key: Key, limit: int, windowMs: Time, now: Time): (map<Key, Bucket>, Verdict) {
    if key !in buckets || buckets[key].resetAt <= now then
      (buckets[key := Bucket(1, now + windowMs)], Remaining(limit - 1))
    else if buckets[key].count >= limit then
      (buckets, TooMany(CeilSeconds(buckets[key].resetAt - now)))
    else
      (buckets[key := buckets[key].(count := buckets[key].count + 1)], Remaining(limit - (buckets[key].count + 1)))
  }

  class RateLimitService {
    var buckets: map<Key, Bucket>

    constructor ()
      ensures buckets == map[]
    {
      buckets := map[];
    }

    /** The TooMany verdict stands for the thrown 429. */
    method Consume(key: Key, limit: int, windowMs: Time, now: Time) returns (verdict: Verdict)
      modifies this
      ensures (buckets, verdict) == ConsumeAt(old(buckets), key, limit, windowMs, now)
      ensures forall other | other in old(buckets) && other != key :: other in buckets && buckets[other] == old(buckets)[other]
    {
      if key !in buckets || buckets[key].resetAt <= now {
        buckets := buckets[key := Bucket(1, now + windowMs)];
        return Remaining(limit - 1);
      }
      var existing := buckets[key];
      if existing.count >= limit {
        return TooMany(CeilSeconds(existing.resetAt - now));
      }
      buckets := buckets[key := existing.(count := existing.count + 1)];
      verdict := Remaining(limit - (existing.count + 1));
    }
  }

  // ---- sequences of calls

  datatype Call = Call(key: Key, limit: int, windowMs: Time, now: Time)

  function Replay(calls: seq<Call>): map<Key, Bucket> {
    if |calls| == 0 then map[]
    else
      var c := calls[|calls| - 1];
      ConsumeAt(Replay(calls[..|calls| - 1]), c.key, c.limit, c.windowMs, c.now).0
  }

  predicate LastAccepted(calls: seq<Call>)
    requires |calls| > 0
  {
    var c := calls[|calls| - 1];
    ConsumeAt(Replay(calls[..|calls| - 1]), c.key, c.limit, c.windowMs, c.now).1.Remaining?
  }

  /** Accepted calls of a key with `from <= now < to`. */
  function Accepted(calls: seq<Call>, key: Key, from: Time, to: Time): nat {
    if |calls| == 0 then 0
    else
      var c := calls[|calls| - 1];
      Accepted(calls[..|calls| - 1], key, from, to)
      + if c.key == key && from <= c.now < to && LastAccepted(calls) then 1 else 0
  }

  /** The clock never runs backwards, and every call of the key uses one limit and one window. */
  ghost predicate Regular(calls: seq<Call>, key: Key, limit: int, windowMs: Time) {
    && (forall i, j | 0 <= i < j < |calls| :: calls[i].now <= calls[j].now)
    && (forall i | 0 <= i < |calls| && calls[i].key == key :: calls[i].limit == limit && calls[i].windowMs == windowMs)
  }

  lemma {:induction false} NoneLater(calls: seq<Call>, key: Key, from: Time, to: Time)
    requires forall i | 0 <= i < |calls| :: calls[i].now < from
    ensures Accepted(calls, key, from, to) == 0
  {
    if |calls| > 0 {
      NoneLater(calls[..|calls| - 1], key, from, to);
    }
  }

  lemma {:induction false} EmptyInterval(calls: seq<Call>, key: Key, from: Time, to: Time)
    requires to <= from
    ensures Accepted(calls, key, from, to) == 0
  {
    if |calls| > 0 {
      EmptyInterval(calls[..|calls| - 1], key, from, to);
    }
  }

  /** What the present bucket of a key says about any interval of one window length. */
  lemma {:induction false} BucketBounds(calls: seq<Call>, key: Key, limit: int, windowMs: Time, a: Time)
    requires Regular(calls, key, limit, windowMs) && limit >= 1 && windowMs > 0
    ensures key !in Replay(calls) ==> Accepted(calls, key, a, a + windowMs) == 0
    ensures key in Replay(calls) ==>
              var b, n := Replay(calls)[key], Accepted(calls, key, a, a + windowMs);
              var start := b.resetAt - windowMs;
              && 1 <= b.count <= limit && |calls| > 0 && start <= calls[|calls| - 1].now
              && (start < a ==> n <= b.count - 1)
              && (start == a ==> n == b.count)
              && (a <= start < a + windowMs ==> n <= limit - 1 + b.count)
              && (a + windowMs <= start ==> n <= 2 * limit - 1)
  {
    if |calls| > 0 {
      var front, c := calls[..|calls| - 1], calls[|calls| - 1];
      BucketBounds(front, key, limit, windowMs, a);
      if c.key == key && c.now < a {
        NoneLater(front, key, a, a + windowMs);
      }
      if c.key == key && c.now == a && (key !in Replay(front) || Replay(front)[key].resetAt <= c.now) {
        OpeningStartsCount(front, key, limit, windowMs, a);
      }
    }
  }

  /** Nothing was accepted at the very instant a new window opens, because the old one had closed by then. */
  lemma {:induction false} OpeningStartsCount(calls: seq<Call>, key: Key, limit: int, windowMs: Time, now: Time)
    requires Regular(calls, key, limit, windowMs) && windowMs > 0
    requires forall i | 0 <= i < |calls| :: calls[i].now <= now
    requires key !in Replay(calls) || Replay(calls)[key].resetAt <= now
    ensures Accepted(calls, key, now, now + windowMs) == 0
  {
    if |calls| > 0 {
      var front, c := calls[..|calls| - 1], calls[|calls| - 1];
      OpeningStartsCount(front, key, limit, windowMs, now);
    }
  }

  /** A call is accepted exactly when its bucket is new, has run out, or is not full; a refusal changes no bucket. */
  lemma AcceptedExactly(buckets: map<Key, Bucket>, key: Key, limit: int, windowMs: Time, now: Time)
    ensures var (buckets', verdict) := ConsumeAt(buckets, key, limit, windowMs, now);
            && (verdict.Remaining? <==> key !in buckets || buckets[key].resetAt <= now || buckets[key].count < limit)
            && (verdict.TooMany? ==> buckets' == buckets)
            && (verdict.Remaining? ==>
                  key in buckets' && buckets' == buckets[key := buckets'[key]]
                  && verdict.attempts == limit - buckets'[key].count
                  && (key in buckets && buckets[key].resetAt > now ==> buckets'[key] == Bucket(buckets[key].count + 1, buckets[key].resetAt))
                  && (key !in buckets || buckets[key].resetAt <= now ==> buckets'[key] == Bucket(1, now + windowMs)))
  {}

  /** Whoever waits as long as the refusal says is accepted; a whole second less is not enough. */
  lemma RetryTimeIsRight(buckets: map<Key, Bucket>, key: Key, limit: int, windowMs: Time, now: Time, later: Time)
    requires ConsumeAt(buckets, key, limit, windowMs, now).1.TooMany?
    ensures var retry := ConsumeAt(buckets, key, limit, windowMs, now).1.retryAfterSec;
            && retry >= 1
            && (later >= now + 1000 * retry ==> ConsumeAt(buckets, key, limit, windowMs, later).1.Remaining?)
            && (later <= now + 1000 * (retry - 1) ==> ConsumeAt(buckets, key, limit, windowMs, later).1.TooMany?)
  {}

  /** As many more calls as the answer says are accepted in the open window, and the next one is refused. */
  lemma AttemptsLeftExactly(calls: seq<Call>, c: Call, n: nat)
    requires c.windowMs > 0 && ConsumeAt(Replay(calls), c.key, c.limit, c.windowMs, c.now).1 == Remaining(n)
    ensures Accepted(calls + [c] + Repeat(n, c), c.key, c.now, c.now + 1) == Accepted(calls + [c], c.key, c.now, c.now + 1) + n
    ensures ConsumeAt(Replay(calls + [c] + Repeat(n, c)), c.key, c.limit, c.windowMs, c.now).1.TooMany?
  {
    assert (calls + [c])[..|calls|] == calls;
    WindowFills(calls + [c], n, c, c.now, c.now + 1);
  }

  /** Every half-open interval of one window length accepts fewer than twice the limit. */
  lemma AnyWindowLengthBound(calls: seq<Call>, key: Key, limit: int, windowMs: Time, a: Time)
    requires Regular(calls, key, limit, windowMs) && limit >= 1
    ensures Accepted(calls, key, a, a + windowMs) <= 2 * limit - 1
  {
    if windowMs <= 0 {
      EmptyInterval(calls, key, a, a + windowMs);
    } else {
      BucketBounds(calls, key, limit, windowMs, a);
    }
  }

  function Repeat(n: nat, c: Call): (calls: seq<Call>)
    ensures |calls| == n && forall i | 0 <= i < n :: calls[i] == c
  {
    seq(n, _ => c)
  }

  /** Calls that still fit an open window are all accepted. */
  lemma {:induction false} WindowFills(calls: seq<Call>, n: nat, c: Call, from: Time, to: Time)
    requires c.key in Replay(calls) && Replay(calls)[c.key].resetAt > c.now
    requires Replay(calls)[c.key].count + n <= c.limit && from <= c.now < to
    ensures c.key in Replay(calls + Repeat(n, c))
    ensures Replay(calls + Repeat(n, c))[c.key] == Replay(calls)[c.key].(count := Replay(calls)[c.key].count + n)
    ensures Accepted(calls + Repeat(n, c), c.key, from, to) == Accepted(calls, c.key, from, to) + n
  {
    if n == 0 {
      assert calls + Repeat(n, c) == calls;
    } else {
      var front := calls + Repeat(n - 1, c);
      WindowFills(calls, n - 1, c, from, to);
      assert calls + Repeat(n, c) == front + [c];
      assert (front + [c])[..|front|] == front;
    }
  }

  function At(key: Key, limit: nat, windowMs: Time, now: Time): Call { Call(key, limit, windowMs, now) }

  /** A window opened at 0 and filled at its end. */
  function Filled(key: Key, limit: nat, windowMs: Time): seq<Call>
    requires limit >= 1
  {
    [At(key, limit, windowMs, 0)] + Repeat(limit - 1, At(key, limit, windowMs, windowMs - 1))
  }

  /** The same, followed at once by a full window. */
  function Burst(key: Key, limit: nat, windowMs: Time): seq<Call>
    requires limit >= 1
  {
    Filled(key, limit, windowMs) + [At(key, limit, windowMs, windowMs)] + Repeat(limit - 1, At(key, limit, windowMs, windowMs))
  }

  lemma FilledCounts(key: Key, limit: nat, windowMs: Time)
    requires limit >= 1 && windowMs >= 2
    ensures var calls := Filled(key, limit, windowMs);
            && key in Replay(calls) && Replay(calls)[key] == Bucket(limit, windowMs)
            && Accepted(calls, key, windowMs - 1, windowMs - 1 + windowMs) == limit - 1
  {
    var opening := [At(key, limit, windowMs, 0)];
    assert opening[..0] == [];
    WindowFills(opening, limit - 1, At(key, limit, windowMs, windowMs - 1), windowMs - 1, windowMs - 1 + windowMs);
  }

  lemma OneWindowMore(calls: seq<Call>, c: Call, from: Time, to: Time)
    requires c.limit >= 1 && c.windowMs > 0
    requires c.key in Replay(calls) && Replay(calls)[c.key].resetAt <= c.now && from <= c.now < to
    ensures Accepted(calls + [c] + Repeat(c.limit - 1, c), c.key, from, to) == Accepted(calls, c.key, from, to) + c.limit
  {
    WindowFills(calls + [c], c.limit - 1, c, from, to);
  }

  lemma BurstCounts(key: Key, limit: nat, windowMs: Time)
    requires limit >= 1 && windowMs >= 2
    ensures Accepted(Burst(key, limit, windowMs), key, windowMs - 1, windowMs - 1 + windowMs) == 2 * limit - 1
  {
    FilledCounts(key, limit, windowMs);
    OneWindowMore(Filled(key, limit, windowMs), At(key, limit, windowMs, windowMs), windowMs - 1, windowMs - 1 + windowMs);
  }

  /** For every limit and every window of at least 2 ms the bound is reached. */
  lemma BoundIsReached(key: Key, limit: nat, windowMs: Time)
    requires limit >= 1 && windowMs >= 2
    ensures Regular(Burst(key, limit, windowMs), key, limit, windowMs)
    ensures Accepted(Burst(key, limit, windowMs), key, windowMs - 1, windowMs - 1 + windowMs) == 2 * limit - 1
  {
    var calls := Burst(key, limit, windowMs);
    forall i | 0 <= i < |calls|
      ensures calls[i] == At(key, limit, windowMs, if i == 0 then 0 else if i < limit then windowMs - 1 else windowMs) {}
    BurstCounts(key, limit, windowMs);
  }

  /** One call keeps the key's window or opens the next one after it has closed. */
  lemma BucketMoves(calls: seq<Call>, key: Key, limit: int, windowMs: Time)
    requires Regular(calls, key, limit, windowMs) && |calls| > 0 && key in Replay(calls[..|calls| - 1])
    ensures key in Replay(calls)
    ensures var before, after := Replay(calls[..|calls| - 1])[key].resetAt, Replay(calls)[key].resetAt;
            after == before || after - windowMs >= before
  {}

  /** Each bucket's own window, whenever it was opened, accepts at most `limit` calls in all. */
  lemma {:induction false} BucketWindowBound(calls: seq<Call>, n: nat, key: Key, limit: int, windowMs: Time)
    requires Regular(calls, key, limit, windowMs) && limit >= 1 && windowMs > 0
    requires n <= |calls| && key in Replay(calls[..n])
    ensures var resetAt := Replay(calls[..n])[key].resetAt;
            && Accepted(calls, key, resetAt - windowMs, resetAt) <= limit
            && key in Replay(calls)
            && (Replay(calls)[key].resetAt == resetAt || Replay(calls)[key].resetAt - windowMs >= resetAt)
  {
    var resetAt := Replay(calls[..n])[key].resetAt;
    if n == |calls| {
      assert calls[..n] == calls;
      BucketBounds(calls, key, limit, windowMs, resetAt - windowMs);
    } else {
      var front := calls[..|calls| - 1];
      assert front[..n] == calls[..n];
      BucketWindowBound(front, n, key, limit, windowMs);
      BucketMoves(calls, key, limit, windowMs);
      BucketBounds(calls, key, limit, windowMs, resetAt - windowMs);
    }
  }

  // ---- keys do not disturb each other

  function OnlyKey(calls: seq<Call>, key: Key): seq<Call> {
    if |calls| == 0 then []
    else OnlyKey(calls[..|calls| - 1], key)
         + if calls[|calls| - 1].key == key then [calls[|calls| - 1]] else []
  }

  /** A key's bucket, and so its next verdict, is what it would be had no other key ever been used. */
  lemma {:induction false} KeysAreIndependent(calls: seq<Call>, key: Key, limit: int, windowMs: Time, now: Time)
    ensures key in Replay(calls) <==> key in Replay(OnlyKey(calls, key))
    ensures key in Replay(calls) ==> Replay(calls)[key] == Replay(OnlyKey(calls, key))[key]
    ensures ConsumeAt(Replay(calls), key, limit, windowMs, now).1 == ConsumeAt(Replay(OnlyKey(calls, key)), key, limit, windowMs, now).1
  {
    if |calls| > 0 {
      var front, c := calls[..|calls| - 1], calls[|calls| - 1];
      KeysAreIndependent(front, key, c.limit, c.windowMs, c.now);
      if c.key != key {
        assert OnlyKey(calls, key) == OnlyKey(front, key);
      }
    }
  }
}
