/** The sliding-window limiter of backend/core/rate_limiter.py as a state machine over timed requests. */
module RateLimitSpec {
  import opened Prelude

  datatype Key = Key(ip: string, group: string)

  datatype Limit = Limit(maxRequests: nat, window: nat)

  /** Whether the request is refused, after how many seconds to retry, and how many requests count. */
  datatype Verdict = Verdict(limited: bool, retryAfter: int, count: nat)

  datatype Request = Request(key: Key, now: real)

  // ---------- Configuration ----------

  const RATE_LIMITS: seq<(string, Limit)> := [
    ("/api/auth/sync", Limit(10, 60)),
    ("/api/auth/me", Limit(30, 60)),
    ("/api/auth/logout", Limit(10, 60)),
    ("/api/auth/forgot-password", Limit(5, 60)),
    ("/api/auth/reset-password", Limit(10, 60)),
    ("/api/auth/login-direct", Limit(15, 60)),
    ("/api/auth/register-direct", Limit(10, 60)),
    ("/api/admin/auth", Limit(5, 60)),
    ("/api/admin/", Limit(180, 60)),
    ("/api/market/", Limit(10000, 60)),
    ("/api/futures/", Limit(10000, 60)),
    ("/api/options/", Limit(10000, 60))
  ]

  const DEFAULT_RATE_LIMIT := Limit(1000, 60)

  /** Limit of the first table entry that is a prefix of the path, or the default. */
  function LimitFor(path: string, table: seq<(string, Limit)>): Limit {
    if table == [] then DEFAULT_RATE_LIMIT
    else if table[0].0 <= path then table[0].1
    else LimitFor(path, table[1..])
  }

  function LongestWindow(table: seq<(string, Limit)>): nat
    requires table != []
  {
    if |table| == 1 then table[0].1.window
    else
      var rest := LongestWindow(table[1..]);
      if table[0].1.window > rest then table[0].1.window else rest
  }

  const CLEANUP_INTERVAL := 300.0

  /** A limit that allows something and whose window the cleanup respects. */
  predicate Usable(limit: Limit, maxWindow: nat) {
    1 <= limit.maxRequests && limit.window <= maxWindow
  }

  // ---------- The in-memory limiter ----------

  /** Accepted times per client, and the time of the last cleanup. */
  datatype Memory = Memory(requests: map<Key, seq<real>>, lastCleanup: real)

  function Stored(requests: map<Key, seq<real>>, key: Key): seq<real> {
    if key in requests then requests[key] else []
  }

  /** Times that still fall into the window. */
  function Recent(times: seq<real>, window: nat, now: real): (recent: seq<real>)
    ensures |recent| <= |times|
  {
    if times == [] then []
    else if now - times[0] < window as real then [times[0]] + Recent(times[1..], window, now)
    else Recent(times[1..], window, now)
  }

  /** `int(...)`: truncation toward zero. */
  function Truncate(x: real): int {
    if x >= 0.0 then x.Floor else -((-x).Floor)
  }

  /** Whole seconds after which the oldest counted request has certainly left the window. */
  function RetryAfter(limit: Limit, now: real, oldest: real): int {
    Truncate(limit.window as real - (now - oldest)) + 1
  }

  /** Keys without a request in the longest window are forgotten. */
  predicate Forgettable(times: seq<real>, maxWindow: nat, now: real) {
    times == [] || now - times[|times| - 1] > maxWindow as real
  }

  function Cleaned(requests: map<Key, seq<real>>, maxWindow: nat, now: real): map<Key, seq<real>> {
    map k | k in requests && !Forgettable(requests[k], maxWindow, now) :: requests[k]
  }

  function CheckMemory(m: Memory, r: Request, limit: Limit, maxWindow: nat): (Memory, Verdict)
    requires 1 <= limit.maxRequests
  {
    var kept := Recent(Stored(m.requests, r.key), limit.window, r.now);
    if |kept| >= limit.maxRequests then
      (m.(requests := m.requests[r.key := kept]), Verdict(true, RetryAfter(limit, r.now, kept[0]), |kept|))
    else
      var requests := m.requests[r.key := kept + [r.now]];
      var verdict := Verdict(false, 0, |kept| + 1);
      if r.now - m.lastCleanup > CLEANUP_INTERVAL then (Memory(Cleaned(requests, maxWindow, r.now), r.now), verdict)
      else (Memory(requests, m.lastCleanup), verdict)
  }

  // ---------- The sorted-set limiter ----------

  /** Distinct scores in increasing order, and the time at which the whole set expires. */
  datatype SortedSet = SortedSet(scores: seq<real>, deadline: real)

  type Redis = map<Key, SortedSet>

  /** Scores of a key that has not expired. */
  function Scores(z: Redis, key: Key, now: real): seq<real> {
    if key in z && now < z[key].deadline then z[key].scores else []
  }

  /** `zremrangebyscore(key, low, high)`. */
  function RemoveRange(scores: seq<real>, low: real, high: real): (kept: seq<real>)
    ensures |kept| <= |scores|
  {
    if scores == [] then []
    else if low <= scores[0] <= high then RemoveRange(scores[1..], low, high)
    else [scores[0]] + RemoveRange(scores[1..], low, high)
  }

  /** `zadd`: a member that is there already is not added again. */
  function AddScore(scores: seq<real>, s: real): seq<real> {
    if scores == [] then [s]
    else if s == scores[0] then scores
    else if s < scores[0] then [s] + scores
    else [scores[0]] + AddScore(scores[1..], s)
  }

  function CheckRedis(z: Redis, r: Request, limit: Limit): (Redis, Verdict)
    requires 1 <= limit.maxRequests
  {
    var kept := RemoveRange(Scores(z, r.key, r.now), 0.0, r.now - limit.window as real);
    if |kept| >= limit.maxRequests then
      (z[r.key := SortedSet(kept, if r.key in z then z[r.key].deadline else r.now)],
       Verdict(true, RetryAfter(limit, r.now, kept[0]), |kept|))
    else
      (z[r.key := SortedSet(AddScore(kept, r.now), r.now + limit.window as real + 10.0)], Verdict(false, 0, |kept| + 1))
  }
}
