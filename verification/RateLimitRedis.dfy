/** When the sorted-set limiter decides like the in-memory one, and when it does not. */
module RateLimitRedis {
  import opened Prelude
  import opened RateLimitSpec
  import opened RateLimitLaws

  function RedisAfter(limits: Limits, rs: seq<Request>): Redis
    requires forall k :: 1 <= limits(k).maxRequests
  {
    if rs == [] then map[]
    else
      var last := rs[|rs| - 1];
      CheckRedis(RedisAfter(limits, rs[..|rs| - 1]), last, limits(last.key)).0
  }

  function RedisVerdict(limits: Limits, rs: seq<Request>, r: Request): Verdict
    requires forall k :: 1 <= limits(k).maxRequests
  {
    CheckRedis(RedisAfter(limits, rs), r, limits(r.key)).1
  }

  /** Scores of a key whether or not the set has expired. */
  function Raw(z: Redis, key: Key): seq<real> {
    if key in z then z[key].scores else []
  }

  // ---------- One look at the sorted set ----------

  /** Removing the scores up to the cutoff keeps exactly the recent ones. */
  lemma {:induction false} RangeRemovalKeepsRecent(scores: seq<real>, window: nat, now: real)
    requires forall i :: 0 <= i < |scores| ==> scores[i] >= 0.0
    ensures RemoveRange(scores, 0.0, now - window as real) == Recent(scores, window, now)
  {
    if scores != [] {
      RangeRemovalKeepsRecent(scores[1..], window, now);
    }
  }

  lemma {:induction false} AddNewest(scores: seq<real>, s: real)
    requires forall i :: 0 <= i < |scores| ==> scores[i] < s
    ensures AddScore(scores, s) == scores + [s]
  {
    if scores != [] {
      AddNewest(scores[1..], s);
      assert scores + [s] == [scores[0]] + (scores[1..] + [s]);
    }
  }

  /** The set outlives the window of its newest score. */
  ghost predicate Healthy(z: Redis, key: Key, window: nat) {
    key in z ==> forall i :: 0 <= i < |z[key].scores| ==>
      0.0 <= z[key].scores[i] <= z[key].deadline - window as real - 10.0
  }

  /** Expiry of the whole set never hides a score that would still count. */
  lemma LookSeesRecent(z: Redis, key: Key, window: nat, now: real)
    requires Healthy(z, key, window)
    ensures RemoveRange(Scores(z, key, now), 0.0, now - window as real) == Recent(Raw(z, key), window, now)
  {
    RangeRemovalKeepsRecent(Scores(z, key, now), window, now);
    if key in z && now >= z[key].deadline {
      NoneRecent(z[key].scores, window, now);
    }
  }

  // ---------- What the set holds: the history without repetitions ----------

  ghost predicate Increasing(times: seq<real>) {
    forall i, j :: 0 <= i < j < |times| ==> times[i] < times[j]
  }

  /** A sorted list with each time once. */
  function Once(times: seq<real>): (once: seq<real>)
    ensures |once| <= |times|
    ensures forall t :: t in once ==> t in times
    ensures times != [] ==> once != [] && once[|once| - 1] == times[|times| - 1] && once[0] == times[0]
  {
    if |times| <= 1 then times
    else
      var front, t := times[..|times| - 1], times[|times| - 1];
      if front[|front| - 1] == t then Once(front) else Once(front) + [t]
  }

  lemma OnceAppend(times: seq<real>, t: real)
    ensures Once(times + [t]) == if times != [] && times[|times| - 1] == t then Once(times) else Once(times) + [t]
  {
    assert (times + [t])[..|times|] == times;
  }

  lemma OnceIncreasing(times: seq<real>)
    requires Sorted(times)
    ensures Increasing(Once(times))
    ensures Increasing(times) ==> Once(times) == times
    ensures |Once(times)| == |times| ==> Increasing(times)
  {
    OnceIsIncreasing(times);
    if Increasing(times) {
      OnceOfIncreasing(times);
    }
    if |Once(times)| == |times| {
      NothingDropped(times);
    }
  }

  lemma {:induction false} OnceIsIncreasing(times: seq<real>)
    requires Sorted(times)
    ensures Increasing(Once(times))
  {
    if |times| > 1 {
      var n := |times| - 1;
      OnceIsIncreasing(times[..n]);
      if times[n - 1] < times[n] {
        Appended(Once(times[..n]), times[n]);
      }
    }
  }

  lemma {:induction false} OnceOfIncreasing(times: seq<real>)
    requires Increasing(times)
    ensures Once(times) == times
  {
    if |times| > 1 {
      var n := |times| - 1;
      OnceOfIncreasing(times[..n]);
      assert times == times[..n] + [times[n]];
    }
  }

  lemma {:induction false} NothingDropped(times: seq<real>)
    requires Sorted(times) && |Once(times)| == |times|
    ensures Increasing(times)
  {
    if |times| > 1 {
      var n := |times| - 1;
      NothingDropped(times[..n]);
      Appended(times[..n], times[n]);
      assert times == times[..n] + [times[n]];
    }
  }

  lemma Appended(times: seq<real>, t: real)
    requires Increasing(times) && times != [] && times[|times| - 1] < t
    ensures Increasing(times + [t])
  {
    assert forall i :: 0 <= i < |times| ==> times[i] < t;
  }

  /** The newest time is looked at last. */
  lemma LastOfRecent(times: seq<real>, window: nat, now: real)
    requires times != []
    ensures var kept, t := Recent(times, window, now), times[|times| - 1];
      && (now - t < window as real ==> kept != [] && kept[|kept| - 1] == t)
      && (kept != [] ==> kept[|kept| - 1] in times)
  {
    var n := |times| - 1;
    assert times == times[..n] + [times[n]];
    RecentAppend(times[..n], times[n], window, now);
    RecentMembers(times, window, now);
  }

  /** Looking at the times without repetitions is looking, then dropping repetitions. */
  lemma {:induction false} RecentOnce(times: seq<real>, window: nat, now: real)
    requires Sorted(times)
    ensures Recent(Once(times), window, now) == Once(Recent(times, window, now))
  {
    if times != [] {
      var n := |times| - 1;
      var front, t := times[..n], times[n];
      assert times == front + [t];
      RecentOnce(front, window, now);
      RecentOnceNext(front, t, window, now);
    }
  }

  lemma RecentNext(times: seq<real>, t: real, window: nat, now: real)
    ensures Recent(times + [t], window, now) ==
      if now - t < window as real then Recent(times, window, now) + [t] else Recent(times, window, now)
  {
    RecentAppend(times, t, window, now);
    assert Recent(times, window, now) + [] == Recent(times, window, now);
  }

  lemma RecentOnceNext(front: seq<real>, t: real, window: nat, now: real)
    requires Sorted(front + [t])
    requires Recent(Once(front), window, now) == Once(Recent(front, window, now))
    ensures Recent(Once(front + [t]), window, now) == Once(Recent(front + [t], window, now))
  {
    OnceAppend(front, t);
    RecentNext(front, t, window, now);
    RecentNext(Once(front), t, window, now);
    if now - t < window as real {
      RepeatShows(front, t, window, now);
      OnceAppendAlike(front, Recent(front, window, now), t);
    }
  }

  /** Lists that both end with the time or both do not take it up alike. */
  lemma OnceAppendAlike(a: seq<real>, b: seq<real>, t: real)
    requires a != [] && a[|a| - 1] == t <==> b != [] && b[|b| - 1] == t
    ensures if Once(a + [t]) == Once(a) then Once(b + [t]) == Once(b) else Once(b + [t]) == Once(b) + [t]
  {
    OnceAppend(a, t);
    OnceAppend(b, t);
  }

  /** The current time ends the times kept exactly when it ended the list. */
  lemma RepeatShows(front: seq<real>, t: real, window: nat, now: real)
    requires Sorted(front + [t]) && now - t < window as real
    ensures var kept := Recent(front, window, now);
      kept != [] && kept[|kept| - 1] == t <==> front != [] && front[|front| - 1] == t
  {
    if front != [] {
      LastOfRecent(front, window, now);
      SortedTail(front, t);
    }
  }

  lemma SortedTail(front: seq<real>, t: real)
    requires Sorted(front + [t]) && front != []
    ensures front[|front| - 1] != t ==> t !in front
  {
    var times := front + [t];
    assert times[|front|] == t;
    forall i | 0 <= i < |front| ensures front[|front| - 1] != t ==> front[i] != t {
      assert times[i] == front[i] && times[|front| - 1] == front[|front| - 1];
    }
  }

  /** Adding the current time to the kept scores adds it unless it is there. */
  lemma AddNow(kept: seq<real>, now: real)
    requires Increasing(kept) && UpTo(kept, now)
    ensures AddScore(kept, now) == if kept != [] && kept[|kept| - 1] == now then kept else kept + [now]
  {
    if kept != [] && kept[|kept| - 1] == now {
      AddPresent(kept, now);
    } else {
      AddNewest(kept, now);
    }
  }

  lemma {:induction false} AddPresent(scores: seq<real>, s: real)
    requires Increasing(scores) && scores != [] && scores[|scores| - 1] == s
    ensures AddScore(scores, s) == scores
  {
    if |scores| > 1 {
      AddPresent(scores[1..], s);
    }
  }

  /** The set shows the key's history of acceptances without repetitions. */
  ghost predicate Shows(z: Redis, key: Key, history: seq<real>, window: nat, last: real) {
    Healthy(z, key, window) && Mirrors(Raw(z, key), Once(history), window, last)
  }

  lemma ShowsLater(z: Redis, key: Key, history: seq<real>, window: nat, last: real, now: real)
    requires Shows(z, key, history, window, last) && last <= now
    ensures Shows(z, key, history, window, now)
  {
  }

  lemma KeptHealthy(z: Redis, key: Key, window: nat, now: real)
    requires Healthy(z, key, window) && key in z
    ensures forall i :: 0 <= i < |Recent(z[key].scores, window, now)| ==>
      0.0 <= Recent(z[key].scores, window, now)[i] <= z[key].deadline - window as real - 10.0
  {
    var kept := Recent(z[key].scores, window, now);
    RecentMembers(z[key].scores, window, now);
    forall i | 0 <= i < |kept| ensures 0.0 <= kept[i] <= z[key].deadline - window as real - 10.0 {
      var s := kept[i];
      assert s in kept;
      assert s in z[key].scores;
    }
  }

  // ---------- Verdicts ----------

  /** The verdict on a request when these are the times that count. */
  function VerdictOn(kept: seq<real>, limit: Limit, now: real): Verdict
    requires 1 <= limit.maxRequests
  {
    if |kept| >= limit.maxRequests then Verdict(true, RetryAfter(limit, now, kept[0]), |kept|)
    else Verdict(false, 0, |kept| + 1)
  }

  lemma MemoryVerdict(limits: Limits, maxWindow: nat, start: Memory, rs: seq<Request>, r: Request)
    requires AllUsable(limits, maxWindow) && start.requests == map[] && ClockAdvances(rs + [r])
    ensures var history := Accepted(limits, maxWindow, start, rs, r.key);
      && Sorted(history) && UpTo(history, r.now)
      && VerdictAfter(limits, maxWindow, start, rs, r)
         == VerdictOn(Recent(history, limits(r.key).window, r.now), limits(r.key), r.now)
  {
    ClockPrefix(rs, [r]);
    assert [r][0] == r;
    RunTracks(limits, maxWindow, start, rs, r.key, r.now);
  }

  lemma RedisVerdictOn(z: Redis, r: Request, limit: Limit, history: seq<real>, last: real)
    requires 1 <= limit.maxRequests && last <= r.now && Shows(z, r.key, history, limit.window, last)
    ensures CheckRedis(z, r, limit).1 == VerdictOn(Recent(Once(history), limit.window, r.now), limit, r.now)
  {
    LookSeesRecent(z, r.key, limit.window, r.now);
  }

  /** Dropping repetitions changes the verdict exactly when there are some. */
  lemma RepetitionsShow(kept: seq<real>, limit: Limit, now: real)
    requires 1 <= limit.maxRequests && Sorted(kept)
    ensures VerdictOn(Once(kept), limit, now) == VerdictOn(kept, limit, now) <==> Increasing(kept)
  {
    OnceIncreasing(kept);
    if !Increasing(kept) {
      assert |Once(kept)| < |kept|;
    }
  }

  // ---------- Runs ----------

  lemma KeptIncreasing(history: seq<real>, window: nat, now: real)
    requires Sorted(history) && UpTo(history, now)
    ensures Increasing(Recent(Once(history), window, now)) && UpTo(Recent(Once(history), window, now), now)
  {
    var kept := Recent(Once(history), window, now);
    RecentOnce(history, window, now);
    RecentSorted(history, window, now);
    OnceIncreasing(Recent(history, window, now));
    RecentMembers(Once(history), window, now);
    forall i | 0 <= i < |kept| ensures kept[i] <= now {
      var t := kept[i];
      assert t in kept;
      assert t in Once(history);
      assert t in history;
    }
  }

  /** What is shown after the current time has been added to the scores kept. */
  lemma AcceptShows(history: seq<real>, kept: seq<real>, window: nat, now: real)
    requires Sorted(history) && UpTo(history, now) && kept == Recent(Once(history), window, now)
    ensures Mirrors(AddScore(kept, now), Once(history + [now]), window, now)
  {
    KeptIncreasing(history, window, now);
    AddNow(kept, now);
    OnceAppend(history, now);
    NowIsKept(history, window, now);
    forall later | later >= now
      ensures Recent(AddScore(kept, now), window, later) == Recent(Once(history + [now]), window, later)
    {
      RecentTwice(Once(history), window, now, later);
      RecentNext(kept, now, window, later);
      RecentNext(Once(history), now, window, later);
    }
  }

  /** A time that is now is shown exactly when it was accepted before, unless the window has no length. */
  lemma NowIsKept(history: seq<real>, window: nat, now: real)
    requires Sorted(history) && UpTo(history, now)
    ensures var kept := Recent(Once(history), window, now);
      && (kept != [] && kept[|kept| - 1] == now ==> history != [] && history[|history| - 1] == now)
      && (history != [] && history[|history| - 1] == now && window > 0 ==> kept != [] && kept[|kept| - 1] == now)
  {
    var once := Once(history);
    if history != [] {
      LastOfRecent(once, window, now);
      SortedTail(history, now);
    }
  }

  lemma OwnStepShows(z: Redis, r: Request, limit: Limit, history: seq<real>, last: real)
    requires 1 <= limit.maxRequests && last <= r.now && r.now >= 0.0
    requires Shows(z, r.key, history, limit.window, last) && Sorted(history) && UpTo(history, r.now)
    ensures var (after, verdict) := CheckRedis(z, r, limit);
      Shows(after, r.key, if verdict.limited then history else history + [r.now], limit.window, r.now)
  {
    var kept := Recent(Raw(z, r.key), limit.window, r.now);
    LookSeesRecent(z, r.key, limit.window, r.now);
    StoredShows(Raw(z, r.key), history, limit, last, r.now);
    KeptIncreasing(history, limit.window, r.now);
    OwnStepHealthy(z, r, limit, kept);
  }

  /** The scores stored after a request of the key show its history. */
  lemma StoredShows(raw: seq<real>, history: seq<real>, limit: Limit, last: real, now: real)
    requires last <= now && Mirrors(raw, Once(history), limit.window, last)
    requires Sorted(history) && UpTo(history, now)
    ensures var kept := Recent(raw, limit.window, now);
      && kept == Recent(Once(history), limit.window, now)
      && Mirrors(kept, Once(history), limit.window, now)
      && Mirrors(AddScore(kept, now), Once(history + [now]), limit.window, now)
  {
    PrunedShows(raw, Once(history), limit.window, last, now);
    AcceptShows(history, Recent(raw, limit.window, now), limit.window, now);
  }

  lemma PrunedShows(a: seq<real>, b: seq<real>, window: nat, last: real, now: real)
    requires Mirrors(a, b, window, last) && last <= now
    ensures Mirrors(Recent(a, window, now), b, window, now)
  {
    forall later | later >= now ensures Recent(Recent(a, window, now), window, later) == Recent(b, window, later) {
      RecentTwice(a, window, now, later);
    }
  }

  lemma OwnStepHealthy(z: Redis, r: Request, limit: Limit, kept: seq<real>)
    requires 1 <= limit.maxRequests && r.now >= 0.0 && Healthy(z, r.key, limit.window)
    requires kept == Recent(Raw(z, r.key), limit.window, r.now) && UpTo(kept, r.now) && Increasing(kept)
    ensures Healthy(CheckRedis(z, r, limit).0, r.key, limit.window)
  {
    LookSeesRecent(z, r.key, limit.window, r.now);
    if r.key in z {
      KeptHealthy(z, r.key, limit.window, r.now);
    }
    AddNow(kept, r.now);
  }

  ghost predicate SameVerdict(limits: Limits, maxWindow: nat, start: Memory, rs: seq<Request>, r: Request)
    requires forall k :: 1 <= limits(k).maxRequests
  {
    RedisVerdict(limits, rs, r) == VerdictAfter(limits, maxWindow, start, rs, r)
  }

  /** The limiters have answered every request of the run alike. */
  ghost predicate AgreeThroughout(limits: Limits, maxWindow: nat, start: Memory, rs: seq<Request>)
    requires forall k :: 1 <= limits(k).maxRequests
  {
    forall n :: 0 <= n < |rs| ==> SameVerdict(limits, maxWindow, start, rs[..n], rs[n])
  }

  /** The acceptances that count when the request arrives were all at different instants. */
  ghost predicate NoTie(limits: Limits, maxWindow: nat, start: Memory, rs: seq<Request>, r: Request)
    requires forall k :: 1 <= limits(k).maxRequests
  {
    Increasing(Recent(Accepted(limits, maxWindow, start, rs, r.key), limits(r.key).window, r.now))
  }

  ghost predicate NoTies(limits: Limits, maxWindow: nat, start: Memory, rs: seq<Request>)
    requires forall k :: 1 <= limits(k).maxRequests
  {
    forall n :: 0 <= n < |rs| ==> NoTie(limits, maxWindow, start, rs[..n], rs[n])
  }

  ghost predicate TimesNonNegative(rs: seq<Request>) {
    forall i :: 0 <= i < |rs| ==> rs[i].now >= 0.0
  }

  lemma ThroughoutNext(limits: Limits, maxWindow: nat, start: Memory, front: seq<Request>, r: Request)
    requires forall k :: 1 <= limits(k).maxRequests
    ensures AgreeThroughout(limits, maxWindow, start, front + [r]) <==>
            AgreeThroughout(limits, maxWindow, start, front) && SameVerdict(limits, maxWindow, start, front, r)
    ensures NoTies(limits, maxWindow, start, front + [r]) <==>
            NoTies(limits, maxWindow, start, front) && NoTie(limits, maxWindow, start, front, r)
  {
    var rs := front + [r];
    assert rs[..|front|] == front && rs[|front|] == r;
    assert forall n :: 0 <= n < |front| ==> rs[..n] == front[..n] && rs[n] == front[n];
  }

  lemma OtherStepShows(z: Redis, r: Request, limit: Limit, key: Key, history: seq<real>, window: nat, last: real)
    requires 1 <= limit.maxRequests && key != r.key && Shows(z, key, history, window, last)
    ensures Shows(CheckRedis(z, r, limit).0, key, history, window, last)
  {
    var after := CheckRedis(z, r, limit).0;
    assert Raw(after, key) == Raw(z, key);
  }

  /** A run with an advancing clock on which the limiters have agreed so far. */
  ghost predicate Agreeing(limits: Limits, maxWindow: nat, start: Memory, rs: seq<Request>)
    requires forall k :: 1 <= limits(k).maxRequests
  {
    ClockAdvances(rs) && TimesNonNegative(rs) && AgreeThroughout(limits, maxWindow, start, rs)
  }

  lemma ClockFront(front: seq<Request>, r: Request)
    requires ClockAdvances(front + [r]) && TimesNonNegative(front + [r])
    ensures ClockAdvances(front) && TimesNonNegative(front) && r.now >= 0.0
    ensures forall i :: 0 <= i < |front| ==> front[i].now <= r.now
  {
    var rs := front + [r];
    assert rs[|front|] == r;
    assert forall i :: 0 <= i < |front| ==> rs[i] == front[i];
  }

  lemma FrontAndLast(rs: seq<Request>)
    requires rs != []
    ensures rs == rs[..|rs| - 1] + [rs[|rs| - 1]]
  {
  }

  /** As long as the verdicts agree, the set shows each key's history without repetitions. */
  lemma {:induction false} RunShows(limits: Limits, maxWindow: nat, start: Memory, rs: seq<Request>, key: Key, last: real)
    requires AllUsable(limits, maxWindow) && start.requests == map[]
    requires Agreeing(limits, maxWindow, start, rs)
    requires forall i :: 0 <= i < |rs| ==> rs[i].now <= last
    ensures Shows(RedisAfter(limits, rs), key, Accepted(limits, maxWindow, start, rs, key), limits(key).window, last)
  {
    if rs != [] {
      var front, r := rs[..|rs| - 1], rs[|rs| - 1];
      FrontAndLast(rs);
      ClockFront(front, r);
      ThroughoutNext(limits, maxWindow, start, front, r);
      RunShows(limits, maxWindow, start, front, key, r.now);
      StepShows(limits, maxWindow, start, front, r, key, last);
    }
  }

  lemma StepShows(limits: Limits, maxWindow: nat, start: Memory, front: seq<Request>, r: Request, key: Key, last: real)
    requires AllUsable(limits, maxWindow) && start.requests == map[] && ClockAdvances(front + [r])
    requires 0.0 <= r.now <= last && SameVerdict(limits, maxWindow, start, front, r)
    requires Shows(RedisAfter(limits, front), key, Accepted(limits, maxWindow, start, front, key), limits(key).window, r.now)
    ensures Shows(RedisAfter(limits, front + [r]), key, Accepted(limits, maxWindow, start, front + [r], key),
                  limits(key).window, last)
  {
    var z, history := RedisAfter(limits, front), Accepted(limits, maxWindow, start, front, key);
    assert (front + [r])[..|front|] == front;
    if key == r.key {
      MemoryVerdict(limits, maxWindow, start, front, r);
      OwnStepShows(z, r, limits(key), history, r.now);
    } else {
      OtherStepShows(z, r, limits(r.key), key, history, limits(key).window, r.now);
    }
    ShowsLater(RedisAfter(limits, front + [r]), key, Accepted(limits, maxWindow, start, front + [r], key),
               limits(key).window, r.now, last);
  }

  lemma NextVerdictExactly(limits: Limits, maxWindow: nat, start: Memory, rs: seq<Request>, r: Request)
    requires AllUsable(limits, maxWindow) && start.requests == map[]
    requires ClockAdvances(rs + [r]) && TimesNonNegative(rs) && AgreeThroughout(limits, maxWindow, start, rs)
    ensures SameVerdict(limits, maxWindow, start, rs, r) <==> NoTie(limits, maxWindow, start, rs, r)
  {
    var history, limit := Accepted(limits, maxWindow, start, rs, r.key), limits(r.key);
    ClockPrefix(rs, [r]);
    assert [r][0] == r;
    RunShows(limits, maxWindow, start, rs, r.key, r.now);
    MemoryVerdict(limits, maxWindow, start, rs, r);
    RedisVerdictOn(RedisAfter(limits, rs), r, limit, history, r.now);
    RecentOnce(history, limit.window, r.now);
    RecentSorted(history, limit.window, r.now);
    RepetitionsShow(Recent(history, limit.window, r.now), limit, r.now);
  }

  /**
   * The two limiters give the same verdicts all through a run - decisions, retry times and counts,
   * expiry of the set included - exactly when no request finds two acceptances of its client at one
   * instant among those that count.
   */
  lemma {:induction false} LimitersAgreeExactly(limits: Limits, maxWindow: nat, start: Memory, rs: seq<Request>)
    requires AllUsable(limits, maxWindow) && start.requests == map[]
    requires ClockAdvances(rs) && TimesNonNegative(rs)
    ensures AgreeThroughout(limits, maxWindow, start, rs) <==> NoTies(limits, maxWindow, start, rs)
  {
    if rs != [] {
      var front, r := rs[..|rs| - 1], rs[|rs| - 1];
      assert rs == front + [r];
      LimitersAgreeExactly(limits, maxWindow, start, front);
      ThroughoutNext(limits, maxWindow, start, front, r);
      if AgreeThroughout(limits, maxWindow, start, front) {
        NextVerdictExactly(limits, maxWindow, start, front, r);
      }
    }
  }

  /** No two requests of one client coincide. */
  ghost predicate DistinctTimes(rs: seq<Request>) {
    forall i, j :: 0 <= i < j < |rs| && rs[i].key == rs[j].key ==> rs[i].now < rs[j].now
  }

  lemma {:induction false} AcceptedIncreasing(limits: Limits, maxWindow: nat, start: Memory, rs: seq<Request>, key: Key)
    requires forall k :: 1 <= limits(k).maxRequests
    requires DistinctTimes(rs)
    ensures var history := Accepted(limits, maxWindow, start, rs, key);
      && Increasing(history)
      && forall t :: t in history ==> exists i :: 0 <= i < |rs| && rs[i].key == key && rs[i].now == t
  {
    if rs != [] {
      var n := |rs| - 1;
      var front := rs[..n];
      AcceptedIncreasing(limits, maxWindow, start, front, key);
      var before := Accepted(limits, maxWindow, start, front, key);
      forall t | t in before
        ensures exists i :: 0 <= i < n && rs[i].key == key && rs[i].now == t
        ensures rs[n].key == key ==> t < rs[n].now
      {
        var i :| 0 <= i < |front| && front[i].key == key && front[i].now == t;
        assert rs[i] == front[i];
      }
      forall i | 0 <= i < |before| ensures rs[n].key == key ==> before[i] < rs[n].now {
        assert before[i] in before;
      }
    }
  }

  lemma {:induction false} RecentIncreasing(times: seq<real>, window: nat, now: real)
    requires Increasing(times)
    ensures Increasing(Recent(times, window, now))
  {
    if times != [] {
      var rest := Recent(times[1..], window, now);
      RecentIncreasing(times[1..], window, now);
      RecentMembers(times[1..], window, now);
      forall j | 0 <= j < |rest| ensures times[0] < rest[j] {
        var t := rest[j];
        assert t in rest;
        assert t in times[1..];
      }
    }
  }

  /** In particular they agree on every run in which no client sends two requests at one instant. */
  lemma LimitersAgree(limits: Limits, maxWindow: nat, start: Memory, rs: seq<Request>)
    requires AllUsable(limits, maxWindow) && start.requests == map[]
    requires ClockAdvances(rs) && TimesNonNegative(rs) && DistinctTimes(rs)
    ensures AgreeThroughout(limits, maxWindow, start, rs)
  {
    forall n | 0 <= n < |rs| ensures NoTie(limits, maxWindow, start, rs[..n], rs[n]) {
      AcceptedIncreasing(limits, maxWindow, start, rs[..n], rs[n].key);
      RecentIncreasing(Accepted(limits, maxWindow, start, rs[..n], rs[n].key), limits(rs[n].key).window, rs[n].now);
    }
    LimitersAgreeExactly(limits, maxWindow, start, rs);
  }

  // ---------- Requests at one instant ----------

  function Burst(r: Request, n: nat): (rs: seq<Request>)
    ensures |rs| == n
  {
    seq(n, i => r)
  }

  lemma {:induction false} BurstStays(limits: Limits, r: Request, n: nat)
    requires forall k :: 1 <= limits(k).maxRequests
    requires limits(r.key).maxRequests >= 2 && r.now >= 0.0
    ensures Raw(RedisAfter(limits, Burst(r, n)), r.key) == if n == 0 then [] else [r.now]
  {
    if n > 0 {
      BurstStays(limits, r, n - 1);
      assert Burst(r, n)[..n - 1] == Burst(r, n - 1);
      var z := RedisAfter(limits, Burst(r, n - 1));
      var kept := RemoveRange(Scores(z, r.key, r.now), 0.0, r.now - limits(r.key).window as real);
      assert kept == [] || kept == [r.now];
    }
  }

  /**
   * Requests of one client at one instant share a member of the sorted set, so it counts them as
   * one: with a limit of at least 2 no burst is ever refused, however long.
   */
  lemma BurstNeverRefused(limits: Limits, r: Request, n: nat)
    requires forall k :: 1 <= limits(k).maxRequests
    requires limits(r.key).maxRequests >= 2 && r.now >= 0.0
    ensures !RedisVerdict(limits, Burst(r, n), r).limited
  {
    BurstStays(limits, r, n);
  }

  lemma {:induction false} BurstAccepted(limits: Limits, maxWindow: nat, start: Memory, r: Request, n: nat)
    requires AllUsable(limits, maxWindow) && start.requests == map[]
    requires n <= limits(r.key).maxRequests && limits(r.key).window > 0
    ensures |Recent(Accepted(limits, maxWindow, start, Burst(r, n), r.key), limits(r.key).window, r.now)| == n
  {
    if n > 0 {
      var front := Burst(r, n - 1);
      BurstAccepted(limits, maxWindow, start, r, n - 1);
      assert Burst(r, n)[..n - 1] == front && front + [r] == Burst(r, n);
      RefusedExactlyWhenFull(limits, maxWindow, start, front, r);
      RecentAppend(Accepted(limits, maxWindow, start, front, r.key), r.now, limits(r.key).window, r.now);
    }
  }

  /** The in-memory limiter refuses the same burst once the limit is reached. */
  lemma BurstRefusedInMemory(limits: Limits, maxWindow: nat, start: Memory, r: Request)
    requires AllUsable(limits, maxWindow) && start.requests == map[] && limits(r.key).window > 0
    ensures VerdictAfter(limits, maxWindow, start, Burst(r, limits(r.key).maxRequests), r).limited
  {
    var n := limits(r.key).maxRequests;
    BurstAccepted(limits, maxWindow, start, r, n);
    assert Burst(r, n) + [r] == Burst(r, n + 1);
    RefusedExactlyWhenFull(limits, maxWindow, start, Burst(r, n), r);
  }
}
