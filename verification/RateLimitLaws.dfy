/** The window bound and the retry promise of the in-memory limiter over whole runs. */
module RateLimitLaws {
  import opened Prelude
  import opened RateLimitSpec

  // ---------- Recent times ----------

  ghost predicate Sorted(times: seq<real>) {
    forall i, j :: 0 <= i < j < |times| ==> times[i] <= times[j]
  }

  ghost predicate UpTo(times: seq<real>, now: real) {
    forall i :: 0 <= i < |times| ==> times[i] <= now
  }

  lemma {:induction false} RecentMembers(times: seq<real>, window: nat, now: real)
    ensures forall t :: t in Recent(times, window, now) ==> t in times && now - t < window as real
  {
    if times != [] {
      RecentMembers(times[1..], window, now);
      assert times == [times[0]] + times[1..];
    }
  }

  lemma {:induction false} RecentSorted(times: seq<real>, window: nat, now: real)
    requires Sorted(times)
    ensures Sorted(Recent(times, window, now))
  {
    if times != [] {
      var rest := Recent(times[1..], window, now);
      RecentSorted(times[1..], window, now);
      RecentMembers(times[1..], window, now);
      forall j | 0 <= j < |rest| ensures times[0] <= rest[j] {
        var t := rest[j];
        assert t in rest;
        assert t in times[1..];
      }
    }
  }

  lemma RecentUpTo(times: seq<real>, window: nat, now: real, bound: real)
    requires UpTo(times, bound)
    ensures UpTo(Recent(times, window, now), bound)
  {
    RecentMembers(times, window, now);
    var recent := Recent(times, window, now);
    forall i | 0 <= i < |recent| ensures recent[i] <= bound {
      var t := recent[i];
      assert t in recent;
      assert t in times;
    }
  }

  /** Looking twice is looking once, at the later time. */
  lemma {:induction false} RecentTwice(times: seq<real>, window: nat, now: real, later: real)
    requires now <= later
    ensures Recent(Recent(times, window, now), window, later) == Recent(times, window, later)
  {
    if times != [] {
      RecentTwice(times[1..], window, now, later);
      if now - times[0] < window as real {
        var rest := Recent(times[1..], window, now);
        assert ([times[0]] + rest)[1..] == rest;
      }
    }
  }

  lemma {:induction false} RecentAppend(times: seq<real>, t: real, window: nat, now: real)
    ensures Recent(times + [t], window, now) ==
      Recent(times, window, now) + if now - t < window as real then [t] else []
  {
    if times == [] {
      assert times + [t] == [t];
    } else {
      assert (times + [t])[1..] == times[1..] + [t];
      RecentAppend(times[1..], t, window, now);
    }
  }

  /** When a time of a sorted list is recent, so are all later ones. */
  lemma {:induction false} RecentSuffix(times: seq<real>, window: nat, now: real, i: nat)
    requires Sorted(times) && i < |times| && now - times[i] < window as real
    ensures |Recent(times, window, now)| >= |times| - i
    ensures i == 0 ==> Recent(times, window, now) == times
    decreases |times|
  {
    if i > 0 {
      RecentSuffix(times[1..], window, now, i - 1);
    } else if |times| > 1 {
      RecentSuffix(times[1..], window, now, 0);
    }
  }

  lemma {:induction false} NoneRecent(times: seq<real>, window: nat, now: real)
    requires forall i :: 0 <= i < |times| ==> now - times[i] >= window as real
    ensures Recent(times, window, now) == []
  {
    if times != [] {
      NoneRecent(times[1..], window, now);
    }
  }

  // ---------- Runs ----------

  /** Fixed limits per key: the group of a key names its configuration. */
  type Limits = Key -> Limit

  ghost predicate AllUsable(limits: Limits, maxWindow: nat) {
    forall k :: Usable(limits(k), maxWindow)
  }

  /** The clock never goes back. */
  ghost predicate ClockAdvances(rs: seq<Request>) {
    forall i, j :: 0 <= i < j < |rs| ==> rs[i].now <= rs[j].now
  }

  function After(limits: Limits, maxWindow: nat, start: Memory, rs: seq<Request>): Memory
    requires forall k :: 1 <= limits(k).maxRequests
  {
    if rs == [] then start
    else
      var last := rs[|rs| - 1];
      CheckMemory(After(limits, maxWindow, start, rs[..|rs| - 1]), last, limits(last.key), maxWindow).0
  }

  /** Verdict on one more request. */
  function VerdictAfter(limits: Limits, maxWindow: nat, start: Memory, rs: seq<Request>, r: Request): Verdict
    requires forall k :: 1 <= limits(k).maxRequests
  {
    CheckMemory(After(limits, maxWindow, start, rs), r, limits(r.key), maxWindow).1
  }

  /** Times of the key's accepted requests, in order. */
  function Accepted(limits: Limits, maxWindow: nat, start: Memory, rs: seq<Request>, key: Key): seq<real>
    requires forall k :: 1 <= limits(k).maxRequests
  {
    if rs == [] then []
    else
      var front, last := rs[..|rs| - 1], rs[|rs| - 1];
      var before := Accepted(limits, maxWindow, start, front, key);
      if last.key == key && !VerdictAfter(limits, maxWindow, start, front, last).limited then before + [last.now] else before
  }

  /** Any `maxRequests` consecutive acceptances are followed by none within the window. */
  ghost predicate Spaced(times: seq<real>, limit: Limit) {
    forall i, j :: 0 <= i && j == i + limit.maxRequests && j < |times| ==> times[j] - times[i] >= limit.window as real
  }

  /** The stored list shows the same recent requests as the whole history, now and later. */
  ghost predicate Mirrors(stored: seq<real>, history: seq<real>, window: nat, last: real) {
    forall now :: now >= last ==> Recent(stored, window, now) == Recent(history, window, now)
  }

  ghost predicate Tracks(stored: seq<real>, history: seq<real>, limit: Limit, last: real) {
    && Sorted(history) && UpTo(history, last) && Spaced(history, limit)
    && Sorted(stored) && UpTo(stored, last) && |stored| <= limit.maxRequests
    && Mirrors(stored, history, limit.window, last)
  }

  lemma SpacedAppend(history: seq<real>, now: real, limit: Limit)
    requires Sorted(history) && Spaced(history, limit) && 1 <= limit.maxRequests
    requires |Recent(history, limit.window, now)| < limit.maxRequests
    ensures Spaced(history + [now], limit)
  {
    var longer := history + [now];
    forall i, j | 0 <= i && j == i + limit.maxRequests && j < |longer|
      ensures longer[j] - longer[i] >= limit.window as real
    {
      if j == |history| && now - history[i] < limit.window as real {
        RecentSuffix(history, limit.window, now, i);
      }
    }
  }

  /** Looking prunes the stored list but not what it shows. */
  lemma PruneKeepsTracking(stored: seq<real>, history: seq<real>, limit: Limit, last: real, now: real)
    requires Tracks(stored, history, limit, last) && last <= now
    ensures Tracks(Recent(stored, limit.window, now), history, limit, now)
  {
    var w := limit.window;
    RecentSorted(stored, w, now);
    RecentUpTo(stored, w, now, now);
    forall later | later >= now ensures Recent(Recent(stored, w, now), w, later) == Recent(history, w, later) {
      RecentTwice(stored, w, now, later);
    }
  }

  lemma AcceptKeepsTracking(kept: seq<real>, history: seq<real>, limit: Limit, now: real)
    requires Tracks(kept, history, limit, now) && 1 <= limit.maxRequests
    requires |Recent(history, limit.window, now)| < limit.maxRequests && |kept| < limit.maxRequests
    ensures Tracks(kept + [now], history + [now], limit, now)
  {
    SpacedAppend(history, now, limit);
    forall later | later >= now
      ensures Recent(kept + [now], limit.window, later) == Recent(history + [now], limit.window, later)
    {
      RecentAppend(kept, now, limit.window, later);
      RecentAppend(history, now, limit.window, later);
    }
  }

  /** Forgetting a key loses nothing that could still count. */
  lemma ForgetKeepsTracking(stored: seq<real>, history: seq<real>, limit: Limit, maxWindow: nat, now: real)
    requires Tracks(stored, history, limit, now) && limit.window <= maxWindow
    requires Forgettable(stored, maxWindow, now)
    ensures Tracks([], history, limit, now)
  {
    forall later | later >= now ensures Recent([], limit.window, later) == Recent(history, limit.window, later) {
      NoneRecent(stored, limit.window, later);
    }
  }

  lemma TracksLater(stored: seq<real>, history: seq<real>, limit: Limit, last: real, now: real)
    requires Tracks(stored, history, limit, last) && last <= now
    ensures Tracks(stored, history, limit, now)
  {
    forall i | 0 <= i < |history| ensures history[i] <= now {
    }
  }

  lemma CleanedTracks(requests: map<Key, seq<real>>, key: Key, history: seq<real>, limit: Limit, maxWindow: nat, now: real)
    requires Tracks(Stored(requests, key), history, limit, now) && limit.window <= maxWindow
    ensures Tracks(Stored(Cleaned(requests, maxWindow, now), key), history, limit, now)
  {
    if key in requests && Forgettable(requests[key], maxWindow, now) {
      ForgetKeepsTracking(requests[key], history, limit, maxWindow, now);
    }
  }

  lemma StepKeepsTracking(m: Memory, r: Request, limit: Limit, maxWindow: nat, key: Key, keyLimit: Limit,
                          history: seq<real>, last: real)
    requires Usable(limit, maxWindow) && Usable(keyLimit, maxWindow) && (key == r.key ==> limit == keyLimit)
    requires Tracks(Stored(m.requests, key), history, keyLimit, last) && last <= r.now
    ensures var (after, verdict) := CheckMemory(m, r, limit, maxWindow);
      Tracks(Stored(after.requests, key), if key == r.key && !verdict.limited then history + [r.now] else history,
             keyLimit, r.now)
  {
    var stored := Stored(m.requests, key);
    var (after, verdict) := CheckMemory(m, r, limit, maxWindow);
    var kept := Recent(Stored(m.requests, r.key), limit.window, r.now);
    var next := if key == r.key && !verdict.limited then history + [r.now] else history;
    if key == r.key {
      PruneKeepsTracking(stored, history, limit, last, r.now);
      if !verdict.limited {
        AcceptKeepsTracking(kept, history, limit, r.now);
      }
    } else {
      TracksLater(stored, history, keyLimit, last, r.now);
    }
    if !verdict.limited {
      CleanedTracks(m.requests[r.key := kept + [r.now]], key, next, keyLimit, maxWindow, r.now);
    }
  }

  /** On every run with an advancing clock the memory tracks each key's history of acceptances. */
  lemma {:induction false} RunTracks(limits: Limits, maxWindow: nat, start: Memory, rs: seq<Request>, key: Key, last: real)
    requires AllUsable(limits, maxWindow) && start.requests == map[] && ClockAdvances(rs)
    requires forall i :: 0 <= i < |rs| ==> rs[i].now <= last
    ensures Tracks(Stored(After(limits, maxWindow, start, rs).requests, key),
                   Accepted(limits, maxWindow, start, rs, key), limits(key), last)
  {
    if rs != [] {
      var front, r := rs[..|rs| - 1], rs[|rs| - 1];
      RunTracks(limits, maxWindow, start, front, key, r.now);
      StepKeepsTracking(After(limits, maxWindow, start, front), r, limits(r.key), maxWindow, key, limits(key),
                        Accepted(limits, maxWindow, start, front, key), r.now);
      TracksLater(Stored(After(limits, maxWindow, start, rs).requests, key),
                  Accepted(limits, maxWindow, start, rs, key), limits(key), r.now, last);
    }
  }

  // ---------- The window bound ----------

  /** Times in the half-open interval [from, from + window). */
  function Within(times: seq<real>, from: real, window: nat): seq<real> {
    if times == [] then []
    else
      var rest := Within(times[..|times| - 1], from, window);
      var t := times[|times| - 1];
      if from <= t < from + window as real then rest + [t] else rest
  }

  lemma {:induction false} WithinAfter(times: seq<real>, from: real, window: nat, j: nat)
    requires Sorted(times) && j <= |times| && (j > 0 ==> times[j - 1] < from)
    ensures |Within(times, from, window)| <= |times| - j
  {
    if times != [] {
      if j < |times| {
        WithinAfter(times[..|times| - 1], from, window, j);
      } else {
        WithinAfter(times[..|times| - 1], from, window, j - 1);
      }
    }
  }

  lemma {:induction false} SpacedBound(times: seq<real>, limit: Limit, from: real)
    requires Sorted(times) && Spaced(times, limit) && 1 <= limit.maxRequests
    ensures |Within(times, from, limit.window)| <= limit.maxRequests
  {
    if times != [] {
      var n := |times| - 1;
      SpacedBound(times[..n], limit, from);
      if from <= times[n] < from + limit.window as real {
        if n >= limit.maxRequests {
          assert times[n] - times[n - limit.maxRequests] >= limit.window as real;
          WithinAfter(times[..n], from, limit.window, n - limit.maxRequests + 1);
        } else {
          WithinAfter(times[..n], from, limit.window, 0);
        }
      }
    }
  }

  /**
   * However the requests of all clients interleave, and whenever the cleanup runs: no half-open
   * interval of one window holds more than `maxRequests` accepted requests of a key.
   */
  lemma WindowBound(limits: Limits, maxWindow: nat, start: Memory, rs: seq<Request>, key: Key, from: real)
    requires AllUsable(limits, maxWindow) && start.requests == map[] && ClockAdvances(rs)
    ensures |Within(Accepted(limits, maxWindow, start, rs, key), from, limits(key).window)| <= limits(key).maxRequests
  {
    var last := if rs == [] then 0.0 else rs[|rs| - 1].now;
    RunTracks(limits, maxWindow, start, rs, key, last);
    SpacedBound(Accepted(limits, maxWindow, start, rs, key), limits(key), from);
  }

  /** A request is refused exactly when the window that ends with it is full. */
  lemma RefusedExactlyWhenFull(limits: Limits, maxWindow: nat, start: Memory, rs: seq<Request>, r: Request)
    requires AllUsable(limits, maxWindow) && start.requests == map[] && ClockAdvances(rs + [r])
    ensures VerdictAfter(limits, maxWindow, start, rs, r).limited <==>
      |Recent(Accepted(limits, maxWindow, start, rs, r.key), limits(r.key).window, r.now)| >= limits(r.key).maxRequests
  {
    forall i | 0 <= i < |rs| ensures rs[i].now <= r.now {
      assert (rs + [r])[i] == rs[i] && (rs + [r])[|rs|] == r;
    }
    forall i, j | 0 <= i < j < |rs| ensures rs[i].now <= rs[j].now {
      assert (rs + [r])[i] == rs[i] && (rs + [r])[j] == rs[j];
    }
    RunTracks(limits, maxWindow, start, rs, r.key, r.now);
  }

  /** The count reported is that of the accepted requests in the window, and this one if it is accepted. */
  lemma CountsTheWindow(limits: Limits, maxWindow: nat, start: Memory, rs: seq<Request>, r: Request)
    requires AllUsable(limits, maxWindow) && start.requests == map[] && ClockAdvances(rs + [r])
    ensures VerdictAfter(limits, maxWindow, start, rs, r).count ==
      |Recent(Accepted(limits, maxWindow, start, rs, r.key), limits(r.key).window, r.now)|
      + if VerdictAfter(limits, maxWindow, start, rs, r).limited then 0 else 1
    ensures !VerdictAfter(limits, maxWindow, start, rs, r).limited ==>
      VerdictAfter(limits, maxWindow, start, rs, r).retryAfter == 0
  {
    ClockPrefix(rs, [r]);
    forall i | 0 <= i < |rs| ensures rs[i].now <= r.now {
      assert [r][0] == r;
    }
    RunTracks(limits, maxWindow, start, rs, r.key, r.now);
  }

  /** The cleanup keeps exactly the keys that have a request within the longest window. */
  lemma CleanedExactly(requests: map<Key, seq<real>>, maxWindow: nat, now: real, key: Key)
    requires key in requests ==> Sorted(requests[key])
    ensures key in Cleaned(requests, maxWindow, now) <==>
      key in requests && exists t :: t in requests[key] && now - t <= maxWindow as real
    ensures key in Cleaned(requests, maxWindow, now) ==> Cleaned(requests, maxWindow, now)[key] == requests[key]
  {
    if key in requests && requests[key] != [] {
      var times := requests[key];
      assert times[|times| - 1] in times;
      assert forall t :: t in times ==> t <= times[|times| - 1];
    }
  }

  /** A request accepted more than five minutes after the last cleanup leaves only such keys. */
  lemma IdleKeysForgotten(m: Memory, r: Request, limit: Limit, maxWindow: nat, key: Key)
    requires 1 <= limit.maxRequests && r.now - m.lastCleanup > 300.0
    requires forall k :: k in m.requests ==> Sorted(m.requests[k]) && UpTo(m.requests[k], r.now)
    ensures var (after, verdict) := CheckMemory(m, r, limit, maxWindow);
      !verdict.limited ==>
        && after.lastCleanup == r.now
        && (key in after.requests ==> exists t :: t in after.requests[key] && r.now - t <= maxWindow as real)
  {
    var stored := Stored(m.requests, r.key);
    var kept := Recent(stored, limit.window, r.now);
    RecentSorted(stored, limit.window, r.now);
    RecentUpTo(stored, limit.window, r.now, r.now);
    CleanedExactly(m.requests[r.key := kept + [r.now]], maxWindow, r.now, key);
  }

  // ---------- The retry promise ----------

  /** Refused requests and requests of other keys leave a key's history as it is. */
  lemma {:induction false} HistoryUnchanged(limits: Limits, maxWindow: nat, start: Memory, rs: seq<Request>,
                                            others: seq<Request>, key: Key)
    requires forall k :: 1 <= limits(k).maxRequests
    requires forall i :: 0 <= i < |others| ==> others[i].key != key
    ensures Accepted(limits, maxWindow, start, rs + others, key) == Accepted(limits, maxWindow, start, rs, key)
  {
    if others == [] {
      assert rs + others == rs;
    } else {
      var front := others[..|others| - 1];
      HistoryUnchanged(limits, maxWindow, start, rs, front, key);
      assert (rs + others)[..|rs + others| - 1] == rs + front;
    }
  }

  lemma RefusalUnchanged(limits: Limits, maxWindow: nat, start: Memory, rs: seq<Request>, r: Request)
    requires forall k :: 1 <= limits(k).maxRequests
    requires VerdictAfter(limits, maxWindow, start, rs, r).limited
    ensures Accepted(limits, maxWindow, start, rs + [r], r.key) == Accepted(limits, maxWindow, start, rs, r.key)
  {
    var all := rs + [r];
    assert all[..|all| - 1] == rs && all[|all| - 1] == r;
  }

  /** At a refusal exactly `maxRequests` accepted requests are in the window, and the oldest sets the wait. */
  lemma RefusalWindow(limits: Limits, maxWindow: nat, start: Memory, rs: seq<Request>, r: Request)
    requires AllUsable(limits, maxWindow) && start.requests == map[] && ClockAdvances(rs + [r])
    requires VerdictAfter(limits, maxWindow, start, rs, r).limited
    ensures var kept := Recent(Accepted(limits, maxWindow, start, rs, r.key), limits(r.key).window, r.now);
      && Sorted(kept) && |kept| == limits(r.key).maxRequests
      && r.now - kept[0] < limits(r.key).window as real
      && VerdictAfter(limits, maxWindow, start, rs, r).retryAfter == RetryAfter(limits(r.key), r.now, kept[0])
  {
    var limit, h := limits(r.key), Accepted(limits, maxWindow, start, rs, r.key);
    ClockPrefix(rs, [r]);
    forall i | 0 <= i < |rs| ensures rs[i].now <= r.now {
      assert [r][0] == r;
    }
    RunTracks(limits, maxWindow, start, rs, r.key, r.now);
    RecentSorted(h, limit.window, r.now);
    RecentMembers(h, limit.window, r.now);
    var oldest := Recent(h, limit.window, r.now)[0];
    assert oldest in Recent(h, limit.window, r.now);
  }

  lemma ClockPrefix(rs: seq<Request>, more: seq<Request>)
    requires ClockAdvances(rs + more)
    ensures ClockAdvances(rs)
    ensures forall i, j :: 0 <= i < |rs| && 0 <= j < |more| ==> rs[i].now <= more[j].now
  {
    var all := rs + more;
    forall i, j | 0 <= i < j < |rs| ensures rs[i].now <= rs[j].now {
      assert all[i] == rs[i] && all[j] == rs[j];
    }
    forall i, j | 0 <= i < |rs| && 0 <= j < |more| ensures rs[i].now <= more[j].now {
      assert all[i] == rs[i] && all[|rs| + j] == more[j];
    }
  }

  /** A full window stays full until its oldest time leaves it. */
  lemma FullUntilOldestLeaves(kept: seq<real>, limit: Limit, later: real)
    requires Sorted(kept) && 1 <= limit.maxRequests == |kept|
    ensures |Recent(kept, limit.window, later)| >= limit.maxRequests <==> later - kept[0] < limit.window as real
  {
    if later - kept[0] < limit.window as real {
      RecentSuffix(kept, limit.window, later, 0);
    }
  }

  lemma RetryAfterOvershoot(limit: Limit, now: real, oldest: real)
    requires now - oldest < limit.window as real
    ensures oldest + limit.window as real < now + RetryAfter(limit, now, oldest) as real
    ensures now + RetryAfter(limit, now, oldest) as real <= oldest + limit.window as real + 1.0
  {
  }

  /** Oldest request that counts against a refused one. */
  function Oldest(limits: Limits, maxWindow: nat, start: Memory, rs: seq<Request>, r: Request): real
    requires forall k :: 1 <= limits(k).maxRequests
  {
    var recent := Recent(Accepted(limits, maxWindow, start, rs, r.key), limits(r.key).window, r.now);
    if recent == [] then r.now else recent[0]
  }

  /**
   * The retry promise. After a refusal, with only other clients in between, the same client is
   * accepted exactly from the moment the oldest counted request leaves the window; the promised
   * wait ends after that moment, by at most one second.
   */
  lemma RetryPromise(limits: Limits, maxWindow: nat, start: Memory, rs: seq<Request>, r: Request,
                     others: seq<Request>, again: Request)
    requires AllUsable(limits, maxWindow) && start.requests == map[] && ClockAdvances(rs + [r] + others + [again])
    requires VerdictAfter(limits, maxWindow, start, rs, r).limited && again.key == r.key
    requires forall i :: 0 <= i < |others| ==> others[i].key != r.key
    ensures var leaves := Oldest(limits, maxWindow, start, rs, r) + limits(r.key).window as real;
      var promised := r.now + VerdictAfter(limits, maxWindow, start, rs, r).retryAfter as real;
      && (VerdictAfter(limits, maxWindow, start, rs + [r] + others, again).limited <==> again.now < leaves)
      && leaves < promised <= leaves + 1.0
  {
    var limit, h := limits(r.key), Accepted(limits, maxWindow, start, rs, r.key);
    ClockPrefix(rs + [r] + others, [again]);
    ClockPrefix(rs + [r], others);
    RefusalWindow(limits, maxWindow, start, rs, r);
    RefusalUnchanged(limits, maxWindow, start, rs, r);
    HistoryUnchanged(limits, maxWindow, start, rs + [r], others, r.key);
    RefusedExactlyWhenFull(limits, maxWindow, start, rs + [r] + others, again);
    assert (rs + [r] + others)[|rs|] == r && [again][0] == again;
    RecentTwice(h, limit.window, r.now, again.now);
    FullUntilOldestLeaves(Recent(h, limit.window, r.now), limit, again.now);
    RetryAfterOvershoot(limit, r.now, Recent(h, limit.window, r.now)[0]);
  }

  // ---------- The shipped configuration ----------

  lemma {:induction false} LimitForUsable(path: string, table: seq<(string, Limit)>, maxWindow: nat)
    requires table != [] && LongestWindow(table) <= maxWindow && DEFAULT_RATE_LIMIT.window <= maxWindow
    requires forall i :: 0 <= i < |table| ==> table[i].1.maxRequests >= 1
    ensures Usable(LimitFor(path, table), maxWindow)
  {
    if |table| > 1 && !(table[0].0 <= path) {
      LimitForUsable(path, table[1..], maxWindow);
    }
  }

  /** Every path gets a limit for which the laws above hold with the cleanup's own horizon. */
  lemma ShippedLimitsUsable(path: string)
    ensures Usable(LimitFor(path, RATE_LIMITS), LongestWindow(RATE_LIMITS))
  {
    TableIsUsable();
    AllSixty(RATE_LIMITS);
    LimitForUsable(path, RATE_LIMITS, LongestWindow(RATE_LIMITS));
  }

  lemma TableIsUsable()
    ensures forall i :: 0 <= i < |RATE_LIMITS| ==> RATE_LIMITS[i].1.window == 60 && RATE_LIMITS[i].1.maxRequests >= 1
  {
  }

  lemma {:induction false} AllSixty(table: seq<(string, Limit)>)
    requires table != [] && forall i :: 0 <= i < |table| ==> table[i].1.window == 60
    ensures LongestWindow(table) == 60
  {
    if |table| > 1 {
      AllSixty(table[1..]);
    }
  }

  /** The table entry with the first prefix of the path decides, and the default when there is none. */
  lemma {:induction false} FirstPrefixDecides(path: string, table: seq<(string, Limit)>, i: nat)
    requires i <= |table| && forall j :: 0 <= j < i ==> !(table[j].0 <= path)
    ensures i < |table| && table[i].0 <= path ==> LimitFor(path, table) == table[i].1
    ensures i == |table| ==> LimitFor(path, table) == DEFAULT_RATE_LIMIT
  {
    if i > 0 {
      FirstPrefixDecides(path, table[1..], i - 1);
    }
  }

  /** The sign-in of administrators has its own limit, apart from that of their other requests. */
  lemma AdminLimits(rest: string)
    ensures LimitFor("/api/admin/auth" + rest, RATE_LIMITS) == Limit(5, 60)
    ensures !("auth" <= rest) ==> LimitFor("/api/admin/" + rest, RATE_LIMITS) == Limit(180, 60)
  {
    NoUserEntry("/api/admin/auth" + rest);
    FirstPrefixDecides("/api/admin/auth" + rest, RATE_LIMITS, 7);
    var path := "/api/admin/" + rest;
    if !("auth" <= rest) {
      NoUserEntry(path);
      assert !("/api/admin/auth" <= path) by {
        assert path[11..] == rest;
      }
      FirstPrefixDecides(path, RATE_LIMITS, 8);
    }
  }

  /** The first seven entries are for users. */
  lemma NoUserEntry(path: string)
    requires |path| > 6 && path[6] == 'd'
    ensures forall j :: 0 <= j < 7 ==> !(RATE_LIMITS[j].0 <= path)
  {
    assert forall j :: 0 <= j < 7 ==> |RATE_LIMITS[j].0| > 6 && RATE_LIMITS[j].0[6] == 'u';
  }
}
