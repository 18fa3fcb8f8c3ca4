/** The two checks of backend/core/rate_limiter.py as objects that update their stores. */
module RateLimiterObjects {
  import opened Prelude
  import opened RateLimitSpec

  class MemoryLimiter {
    var requests: map<Key, seq<real>>
    var lastCleanup: real
    const maxWindow: nat

    ghost function Abstract(): Memory
      reads this
    {
      Memory(requests, lastCleanup)
    }

    constructor (now: real)
      ensures Abstract() == Memory(map[], now) && maxWindow == LongestWindow(RATE_LIMITS)
    {
      requests := map[];
      lastCleanup := now;
      maxWindow := LongestWindow(RATE_LIMITS);
    }

    method Check(key: Key, limit: Limit, now: real) returns (verdict: Verdict)
      requires 1 <= limit.maxRequests
      modifies this
      ensures (Abstract(), verdict) == CheckMemory(old(Abstract()), Request(key, now), limit, maxWindow)
    {
      // Reading a missing key creates an empty list.
      if key !in requests {
        requests := requests[key := []];
      }
      requests := requests[key := Recent(requests[key], limit.window, now)];
      ghost var kept := requests[key];
      assert requests == old(requests)[key := kept];
      if |requests[key]| >= limit.maxRequests {
        var retryAfter := Truncate(limit.window as real - (now - requests[key][0])) + 1;
        return Verdict(true, retryAfter, |requests[key]|);
      }
      requests := requests[key := requests[key] + [now]];
      assert requests == old(requests)[key := kept + [now]];
      if now - lastCleanup > CLEANUP_INTERVAL {
        Cleanup(now);
        lastCleanup := now;
      }
      verdict := Verdict(false, 0, |requests[key]|);
    }

    /** Deletes every key without a request in the longest window. */
    method Cleanup(now: real)
      modifies this`requests
      ensures requests == Cleaned(old(requests), maxWindow, now)
    {
      var expired := set k | k in requests && Forgettable(requests[k], maxWindow, now);
      ghost var before := requests;
      while expired != {}
        invariant requests.Keys <= before.Keys
        invariant forall k :: k in requests ==> requests[k] == before[k]
        invariant forall k :: k in before && k !in requests ==> Forgettable(before[k], maxWindow, now)
        invariant forall k :: k in requests && Forgettable(before[k], maxWindow, now) ==> k in expired
        invariant forall k :: k in expired ==> k in before && Forgettable(before[k], maxWindow, now)
        decreases expired
      {
        var key :| key in expired;
        requests := requests - {key};
        expired := expired - {key};
      }
    }
  }

  class RedisLimiter {
    var store: Redis

    constructor ()
      ensures store == map[]
    {
      store := map[];
    }

    method Check(key: Key, limit: Limit, now: real) returns (verdict: Verdict)
      requires 1 <= limit.maxRequests
      modifies this
      ensures (store, verdict) == CheckRedis(old(store), Request(key, now), limit)
    {
      var cutoff := now - limit.window as real;
      var kept := RemoveRange(Scores(store, key, now), 0.0, cutoff);
      var count := |kept|;
      if count >= limit.maxRequests {
        store := store[key := SortedSet(kept, store[key].deadline)];
        var retryAfter := Truncate(limit.window as real - (now - kept[0])) + 1;
        return Verdict(true, retryAfter, count);
      }
      var ttl := limit.window as real + 10.0;
      store := store[key := SortedSet(AddScore(kept, now), now + ttl)];
      verdict := Verdict(false, 0, count + 1);
    }
  }
}
