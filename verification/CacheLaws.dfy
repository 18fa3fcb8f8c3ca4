/** Whole-run laws of the cache: stack inclusion, retention, and agreement with an unbounded map. */
module CacheLaws {
  import opened Prelude
  import opened CacheSpec

  // ---------- Stack inclusion ----------

  /** a can be obtained from b by leaving entries out. */
  ghost predicate Subsequence<V>(a: seq<Entry<V>>, b: seq<Entry<V>>)
    decreases |b|
  {
    a == [] ||
    (b != [] && ((a[0] == b[0] && Subsequence(a[1..], b[1..])) || Subsequence(a, b[1..])))
  }

  lemma {:induction false} SubsequenceMembers<V>(a: seq<Entry<V>>, b: seq<Entry<V>>)
    requires Subsequence(a, b)
    ensures |a| <= |b|
    ensures forall e :: e in a ==> e in b
    decreases |b|
  {
    if a != [] {
      assert b == [b[0]] + b[1..] && a == [a[0]] + a[1..];
      if a[0] == b[0] && Subsequence(a[1..], b[1..]) {
        SubsequenceMembers(a[1..], b[1..]);
      } else {
        SubsequenceMembers(a, b[1..]);
      }
    }
  }

  lemma SubsequenceCons<V>(a: seq<Entry<V>>, b: seq<Entry<V>>, e: Entry<V>)
    requires Subsequence(a, b)
    ensures Subsequence([e] + a, [e] + b)
    ensures Subsequence(a, [e] + b)
  {
    assert ([e] + a)[1..] == a && ([e] + b)[1..] == b;
  }

  lemma {:induction false} SubsequenceKeep<V>(a: seq<Entry<V>>, b: seq<Entry<V>>, p: Entry<V> -> bool)
    requires Subsequence(a, b)
    ensures Subsequence(Keep(a, p), Keep(b, p))
    decreases |b|
  {
    if a != [] {
      if a[0] == b[0] && Subsequence(a[1..], b[1..]) {
        SubsequenceKeep(a[1..], b[1..], p);
        SubsequenceCons(Keep(a[1..], p), Keep(b[1..], p), a[0]);
      } else {
        SubsequenceKeep(a, b[1..], p);
        SubsequenceCons(Keep(a, p), Keep(b[1..], p), b[0]);
      }
    }
  }

  lemma {:induction false} SubsequenceAppend<V>(a: seq<Entry<V>>, b: seq<Entry<V>>, e: Entry<V>)
    requires Subsequence(a, b)
    ensures Subsequence(a + [e], b + [e])
    ensures Subsequence(a, b + [e])
    decreases |b|
  {
    if b == [] {
      assert a == [] && a + [e] == [e] && b + [e] == [e];
      assert [e][1..] == [];
    } else {
      assert (b + [e])[1..] == b[1..] + [e];
      if a == [] {
        SubsequenceAppend(a, b[1..], e);
        assert a + [e] == [e];
      } else {
        assert (a + [e])[1..] == a[1..] + [e];
        if a[0] == b[0] && Subsequence(a[1..], b[1..]) {
          SubsequenceAppend(a[1..], b[1..], e);
        } else {
          SubsequenceAppend(a, b[1..], e);
        }
      }
    }
  }

  lemma {:induction false} SubsequenceTail<V>(a: seq<Entry<V>>, b: seq<Entry<V>>)
    requires Subsequence(a, b) && a != []
    ensures Subsequence(a[1..], b[1..])
    ensures Subsequence(a[1..], b)
    decreases |b|
  {
    if a[0] == b[0] && Subsequence(a[1..], b[1..]) {
    } else {
      SubsequenceTail(a, b[1..]);
    }
  }

  /** The smaller store is a subsequence and lags by no more than the difference of the limits. */
  ghost predicate Included<V>(small: State<V>, large: State<V>, gap: nat) {
    && small.lastCleanup == large.lastCleanup
    && Subsequence(small.store, large.store)
    && |large.store| <= |small.store| + gap
  }

  lemma {:induction false} KeepGap<V>(a: seq<Entry<V>>, b: seq<Entry<V>>, p: Entry<V> -> bool)
    requires Subsequence(a, b)
    ensures |Keep(b, p)| - |Keep(a, p)| <= |b| - |a|
    decreases |b|
  {
    if a == [] {
      KeepMembers(b, p);
    } else {
      if a[0] == b[0] && Subsequence(a[1..], b[1..]) {
        KeepGap(a[1..], b[1..], p);
      } else {
        KeepGap(a, b[1..], p);
      }
    }
  }

  lemma {:induction false} WithoutLength<V>(store: seq<Entry<V>>, key: string)
    requires DistinctKeys(store)
    ensures |Without(store, key)| == |store| - if Find(store, key).Some? then 1 else 0
    ensures Find(store, key).None? ==> Without(store, key) == store
  {
    if store != [] {
      WithoutLength(store[1..], key);
      FindIsMember(store[1..], key);
    }
  }

  /** Whatever the small store holds under a key, the large one holds as well. */
  lemma SameEntry<V>(a: seq<Entry<V>>, b: seq<Entry<V>>, key: string)
    requires Subsequence(a, b) && DistinctKeys(a) && DistinctKeys(b)
    ensures Find(a, key).Some? ==> Find(b, key) == Find(a, key)
  {
    if Find(a, key).Some? {
      FindIsMember(a, key);
      SubsequenceMembers(a, b);
      FindOnly(b, Find(a, key).value);
    }
  }

  lemma GetKeepsInclusion<V>(a: seq<Entry<V>>, b: seq<Entry<V>>, key: string, now: real, gap: nat)
    requires Subsequence(a, b) && DistinctKeys(a) && DistinctKeys(b) && |b| <= |a| + gap
    ensures Subsequence(AfterGet(a, key, now), AfterGet(b, key, now))
    ensures |AfterGet(b, key, now)| <= |AfterGet(a, key, now)| + gap
  {
    SameEntry(a, b, key);
    SubsequenceKeep(a, b, OtherThan(key));
    WithoutLength(a, key);
    WithoutLength(b, key);
    if Find(b, key).Some? {
      var e := Find(b, key).value;
      HitKeepsInclusion(a, b, key, e);
      GetResult(a, key, now, e);
      GetResult(b, key, now, e);
    }
  }

  /** After a lookup the entry is gone or at the recent end; a missing key changes nothing. */
  lemma GetResult<V>(store: seq<Entry<V>>, key: string, now: real, e: Entry<V>)
    requires Find(store, key).Some? ==> Find(store, key) == Some(e)
    requires Find(store, key).None? ==> Without(store, key) == store
    ensures AfterGet(store, key, now) ==
      if Find(store, key).Some? && now <= e.expireAt then Without(store, key) + [e] else Without(store, key)
  {
  }

  lemma HitKeepsInclusion<V>(a: seq<Entry<V>>, b: seq<Entry<V>>, key: string, e: Entry<V>)
    requires Subsequence(Without(a, key), Without(b, key))
    ensures Subsequence(Without(a, key) + [e], Without(b, key) + [e])
    ensures Subsequence(Without(a, key), Without(b, key) + [e])
  {
    SubsequenceAppend(Without(a, key), Without(b, key), e);
  }

  lemma PlacedKeepsInclusion<V>(a: seq<Entry<V>>, b: seq<Entry<V>>, e: Entry<V>, m: nat, n: nat)
    requires 1 <= m <= n && |a| <= m && |b| <= n && |b| <= |a| + (n - m)
    requires Subsequence(a, b) && DistinctKeys(a) && DistinctKeys(b)
    ensures Subsequence(Placed(a, e, m), Placed(b, e, n))
    ensures |Placed(b, e, n)| <= |Placed(a, e, m)| + (n - m)
  {
    SameEntry(a, b, e.key);
    WithoutLength(a, e.key);
    WithoutLength(b, e.key);
    SubsequenceKeep(a, b, OtherThan(e.key));
    if Find(a, e.key).Some? {
      SubsequenceAppend(Without(a, e.key), Without(b, e.key), e);
    } else if Find(b, e.key).Some? {
      if |a| >= m {
        SubsequenceTail(a, Without(b, e.key));
        SubsequenceAppend(a[1..], Without(b, e.key), e);
      } else {
        SubsequenceAppend(a, Without(b, e.key), e);
      }
    } else if |a| >= m {
      SubsequenceTail(a, b);
      if |b| >= n {
        SubsequenceAppend(a[1..], b[1..], e);
      } else {
        SubsequenceAppend(a[1..], b, e);
      }
    } else {
      SubsequenceAppend(a, b, e);
    }
  }

  lemma StepKeepsInclusion<V>(small: Config, large: Config, s: State<V>, l: State<V>, op: Op<V>)
    requires SameTimers(small, large) && small.maxSize <= large.maxSize
    requires Valid(small, s) && Valid(large, l) && Included(s, l, large.maxSize - small.maxSize)
    ensures Included(Step(small, s, op), Step(large, l, op), large.maxSize - small.maxSize)
  {
    var gap := large.maxSize - small.maxSize;
    match op {
      case Get(key, now) => GetKeepsInclusion(s.store, l.store, key, now, gap);
      case Set(key, value, ttl, now) =>
        var e := Entry(key, value, Deadline(small, ttl, now));
        PlacedKeepsInclusion(s.store, l.store, e, small.maxSize, large.maxSize);
        var a, b := Placed(s.store, e, small.maxSize), Placed(l.store, e, large.maxSize);
        SubsequenceKeep(a, b, Alive(now));
        KeepGap(a, b, Alive(now));
      case Delete(key) =>
        SubsequenceKeep(s.store, l.store, OtherThan(key));
        KeepGap(s.store, l.store, OtherThan(key));
      case InvalidatePrefix(prefix) =>
        SubsequenceKeep(s.store, l.store, Outside(prefix));
        KeepGap(s.store, l.store, Outside(prefix));
      case Clear =>
    }
  }

  /** Two caches that differ in size only. */
  predicate SameTimers(a: Config, b: Config) {
    a.defaultTtl == b.defaultTtl && a.cleanupInterval == b.cleanupInterval
  }

  /**
   * Stack inclusion: on any timed trace the smaller cache's store stays a subsequence of the larger
   * one's, with equal values and expiries, so a larger cache never misses where a smaller one hits.
   */
  lemma {:induction false} StackInclusion<V>(small: Config, large: Config, s: State<V>, l: State<V>, ops: seq<Op<V>>)
    requires SameTimers(small, large) && small.maxSize <= large.maxSize
    requires Valid(small, s) && Valid(large, l) && Included(s, l, large.maxSize - small.maxSize)
    ensures Included(Run(small, s, ops), Run(large, l, ops), large.maxSize - small.maxSize)
    decreases |ops|
  {
    if ops != [] {
      StepKeepsInclusion(small, large, s, l, ops[0]);
      StepKeepsValid(small, s, ops[0]);
      StepKeepsValid(large, l, ops[0]);
      StackInclusion(small, large, Step(small, s, ops[0]), Step(large, l, ops[0]), ops[1..]);
    }
  }

  /** Starting empty, every hit of the smaller cache is a hit of the larger one with the same value. */
  lemma NoBeladyAnomaly<V>(small: Config, large: Config, start: real, ops: seq<Op<V>>, key: string, now: real)
    requires SameTimers(small, large) && 1 <= small.maxSize <= large.maxSize
    ensures var s, l := Run(small, State([], start), ops), Run(large, State([], start), ops);
      Lookup(s.store, key, now).Some? ==> Lookup(l.store, key, now) == Lookup(s.store, key, now)
  {
    var empty: State<V> := State([], start);
    StackInclusion(small, large, empty, empty, ops);
    RunKeepsValid(small, empty, ops);
    RunKeepsValid(large, empty, ops);
    SameEntry(Run(small, empty, ops).store, Run(large, empty, ops).store, key);
  }

  // ---------- Retention ----------

  /** Keys that an operation sets or hits. */
  function Touched<V>(s: State<V>, op: Op<V>): set<string> {
    match op
    case Get(key, now) => if Lookup(s.store, key, now).Some? then {key} else {}
    case Set(key, _, _, _) => {key}
    case _ => {}
  }

  function TouchedBy<V>(cfg: Config, s: State<V>, ops: seq<Op<V>>): set<string>
    decreases |ops|
  {
    if ops == [] then {} else Touched(s, ops[0]) + TouchedBy(cfg, Step(cfg, s, ops[0]), ops[1..])
  }

  /** The operation neither writes nor removes the entry, and happens before it expires. */
  predicate Spares<V>(op: Op<V>, e: Entry<V>) {
    match op
    case Get(_, now) => now <= e.expireAt
    case Set(key, _, _, now) => key != e.key && now <= e.expireAt
    case Delete(key) => key != e.key
    case InvalidatePrefix(prefix) => !(prefix <= e.key)
    case Clear => false
  }

  /** The entry is stored, and only keys of `recent` were used after it. */
  ghost predicate Behind<V>(store: seq<Entry<V>>, e: Entry<V>, recent: set<string>) {
    exists i :: 0 <= i < |store| && store[i] == e && Keys(store[i + 1..]) <= recent
  }

  lemma KeysOf<V>(store: seq<Entry<V>>)
    ensures forall e :: e in store ==> e.key in Keys(store)
    ensures forall k :: k in Keys(store) ==> exists i :: 0 <= i < |store| && store[i].key == k
  {
    forall e | e in store ensures e.key in Keys(store) {
      var i :| 0 <= i < |store| && store[i] == e;
    }
  }

  lemma BehindFirst<V>(e: Entry<V>, rest: seq<Entry<V>>, recent: set<string>)
    requires Keys(rest) <= recent
    ensures Behind([e] + rest, e, recent)
  {
    var store := [e] + rest;
    assert store[0 + 1..] == rest && store[0] == e;
  }

  lemma BehindCons<V>(x: Entry<V>, rest: seq<Entry<V>>, e: Entry<V>, recent: set<string>)
    requires Behind(rest, e, recent)
    ensures Behind([x] + rest, e, recent)
  {
    var i :| 0 <= i < |rest| && rest[i] == e && Keys(rest[i + 1..]) <= recent;
    var store := [x] + rest;
    assert store[i + 1 + 1..] == rest[i + 1..] && store[i + 1] == e;
  }

  lemma {:induction false} BehindKeep<V>(store: seq<Entry<V>>, i: nat, recent: set<string>, p: Entry<V> -> bool)
    requires i < |store| && Keys(store[i + 1..]) <= recent && p(store[i])
    ensures Behind(Keep(store, p), store[i], recent)
    decreases |store|
  {
    if i == 0 {
      KeepMembers(store[1..], p);
      KeysSubset(Keep(store[1..], p), store[1..]);
      BehindFirst(store[0], Keep(store[1..], p), recent);
    } else {
      assert store[1..][i - 1 + 1..] == store[i + 1..];
      BehindKeep(store[1..], i - 1, recent, p);
      if p(store[0]) {
        BehindCons(store[0], Keep(store[1..], p), store[i], recent);
      }
    }
  }

  lemma KeysSubset<V>(a: seq<Entry<V>>, b: seq<Entry<V>>)
    requires forall e :: e in a ==> e in b
    ensures Keys(a) <= Keys(b)
  {
    KeysOf(b);
    forall i | 0 <= i < |a| ensures a[i].key in Keys(b) {
      assert a[i] in b;
    }
  }

  lemma BehindAppend<V>(store: seq<Entry<V>>, e: Entry<V>, recent: set<string>, x: Entry<V>)
    requires Behind(store, e, recent)
    ensures Behind(store + [x], e, recent + {x.key})
  {
    var i :| 0 <= i < |store| && store[i] == e && Keys(store[i + 1..]) <= recent;
    var longer := store + [x];
    assert longer[i + 1..] == store[i + 1..] + [x];
    forall k | k in Keys(longer[i + 1..]) ensures k in recent + {x.key} {
      KeysOf(longer[i + 1..]);
      var j :| 0 <= j < |longer[i + 1..]| && longer[i + 1..][j].key == k;
      if j < |store[i + 1..]| {
        assert store[i + 1..][j].key in Keys(store[i + 1..]);
      }
    }
    assert longer[i] == e;
  }

  lemma BehindWeaken<V>(store: seq<Entry<V>>, e: Entry<V>, recent: set<string>, more: set<string>)
    requires Behind(store, e, recent) && recent <= more
    ensures Behind(store, e, more)
  {
    var i :| 0 <= i < |store| && store[i] == e && Keys(store[i + 1..]) <= recent;
  }

  lemma {:induction false} DistinctCount<V>(store: seq<Entry<V>>)
    requires DistinctKeys(store)
    ensures |Keys(store)| == |store|
  {
    if store != [] {
      var front, last := store[..|store| - 1], store[|store| - 1];
      DistinctCount(front);
      KeysOf(front);
      assert last.key !in Keys(front);
      assert Keys(store) == Keys(front) + {last.key};
    }
  }

  lemma SubsetSize(a: set<string>, b: set<string>)
    requires a <= b
    ensures |a| <= |b|
  {
    assert b == a + (b - a);
  }

  /** The oldest entry is pushed out only when as many other keys as the cache holds were used since. */
  lemma EvictionNeedsRecentKeys<V>(store: seq<Entry<V>>, e: Entry<V>, recent: set<string>, key: string, maxSize: nat)
    requires DistinctKeys(store) && Behind(store, e, recent)
    requires Find(store, key).None? && |store| >= maxSize && store[0] == e
    ensures |recent + {key}| >= maxSize
  {
    var i :| 0 <= i < |store| && store[i] == e && Keys(store[i + 1..]) <= recent;
    assert i == 0;
    var rest := store[0 + 1..];
    DistinctCount(rest);
    FindIsMember(store, key);
    KeysOf(rest);
    assert key !in Keys(rest);
    SubsetSize(Keys(rest) + {key}, recent + {key});
  }

  lemma BehindTail<V>(store: seq<Entry<V>>, e: Entry<V>, recent: set<string>)
    requires Behind(store, e, recent) && store[0] != e
    ensures Behind(store[1..], e, recent)
  {
    var i :| 0 <= i < |store| && store[i] == e && Keys(store[i + 1..]) <= recent;
    assert store[1..][i - 1] == e && store[1..][i - 1 + 1..] == store[i + 1..];
  }

  lemma PlacedKeepsEntry<V>(store: seq<Entry<V>>, e: Entry<V>, recent: set<string>, x: Entry<V>, maxSize: nat)
    requires DistinctKeys(store) && Behind(store, e, recent) && x.key != e.key
    requires |recent + {x.key}| < maxSize
    ensures Behind(Placed(store, x, maxSize), e, recent + {x.key})
  {
    if Find(store, x.key).Some? {
      var i :| 0 <= i < |store| && store[i] == e && Keys(store[i + 1..]) <= recent;
      BehindKeep(store, i, recent, OtherThan(x.key));
      BehindAppend(Without(store, x.key), e, recent, x);
    } else if |store| >= maxSize && store != [] {
      if store[0] == e {
        EvictionNeedsRecentKeys(store, e, recent, x.key, maxSize);
      } else {
        BehindTail(store, e, recent);
        BehindAppend(store[1..], e, recent, x);
      }
    } else {
      BehindAppend(store, e, recent, x);
    }
  }

  lemma KeepsEntry<V>(store: seq<Entry<V>>, e: Entry<V>, recent: set<string>, p: Entry<V> -> bool)
    requires Behind(store, e, recent) && p(e)
    ensures Behind(Keep(store, p), e, recent)
  {
    var i :| 0 <= i < |store| && store[i] == e && Keys(store[i + 1..]) <= recent;
    BehindKeep(store, i, recent, p);
  }

  lemma BehindMember<V>(store: seq<Entry<V>>, e: Entry<V>, recent: set<string>)
    requires Behind(store, e, recent)
    ensures e in store
  {
  }

  lemma GetKeepsEntry<V>(store: seq<Entry<V>>, e: Entry<V>, recent: set<string>, key: string, now: real)
    requires DistinctKeys(store) && Behind(store, e, recent) && now <= e.expireAt
    ensures Behind(AfterGet(store, key, now), e,
      recent + if Lookup(store, key, now).Some? && key != e.key then {key} else {})
  {
    BehindMember(store, e, recent);
    FindOnly(store, e);
    var entry := Find(store, key);
    if key == e.key {
      var moved := Without(store, key) + [e];
      assert moved[|moved| - 1] == e && moved[|moved| - 1 + 1..] == [];
      assert Behind(moved, e, recent);
    } else if entry.Some? {
      FindIsMember(store, key);
      KeepsEntry(store, e, recent, OtherThan(key));
      if now <= entry.value.expireAt {
        BehindAppend(Without(store, key), e, recent, entry.value);
      }
    } else {
      BehindWeaken(store, e, recent, recent);
    }
  }

  lemma StepKeepsEntry<V>(cfg: Config, s: State<V>, op: Op<V>, e: Entry<V>, recent: set<string>)
    requires Valid(cfg, s) && Behind(s.store, e, recent) && Spares(op, e)
    requires |recent + (Touched(s, op) - {e.key})| < cfg.maxSize
    ensures Behind(Step(cfg, s, op).store, e, recent + (Touched(s, op) - {e.key}))
  {
    var more := recent + (Touched(s, op) - {e.key});
    match op {
      case Get(key, now) =>
        GetKeepsEntry(s.store, e, recent, key, now);
        BehindWeaken(AfterGet(s.store, key, now), e,
          recent + if Lookup(s.store, key, now).Some? && key != e.key then {key} else {}, more);
      case Set(key, value, ttl, now) =>
        var x := Entry(key, value, Deadline(cfg, ttl, now));
        assert recent + {key} == more;
        PlacedKeepsEntry(s.store, e, recent, x, cfg.maxSize);
        KeepsEntry(Placed(s.store, x, cfg.maxSize), e, more, Alive(now));
      case Delete(key) =>
        KeepsEntry(s.store, e, recent, OtherThan(key));
        BehindWeaken(Step(cfg, s, op).store, e, recent, more);
      case InvalidatePrefix(prefix) =>
        KeepsEntry(s.store, e, recent, Outside(prefix));
        BehindWeaken(Step(cfg, s, op).store, e, recent, more);
    }
  }

  lemma {:induction false} RetainedBehind<V>(cfg: Config, s: State<V>, ops: seq<Op<V>>, e: Entry<V>, recent: set<string>)
    requires Valid(cfg, s) && Behind(s.store, e, recent)
    requires forall i :: 0 <= i < |ops| ==> Spares(ops[i], e)
    requires |recent + (TouchedBy(cfg, s, ops) - {e.key})| < cfg.maxSize
    ensures e in Run(cfg, s, ops).store
    decreases |ops|
  {
    if ops == [] {
      BehindMember(s.store, e, recent);
    } else {
      var next := Step(cfg, s, ops[0]);
      var more := recent + (Touched(s, ops[0]) - {e.key});
      var all := recent + (TouchedBy(cfg, s, ops) - {e.key});
      SubsetSize(more, all);
      StepKeepsEntry(cfg, s, ops[0], e, recent);
      StepKeepsValid(cfg, s, ops[0]);
      assert more + (TouchedBy(cfg, next, ops[1..]) - {e.key}) == all;
      RetainedBehind(cfg, next, ops[1..], e, more);
    }
  }

  /**
   * Retention: an entry that was just set or hit is still returned, with its value, as long as it is
   * not written, deleted or expired and fewer than `maxSize` distinct other keys were set or hit.
   */
  lemma Retention<V>(cfg: Config, s: State<V>, ops: seq<Op<V>>, e: Entry<V>, now: real)
    requires Valid(cfg, s) && s.store != [] && s.store[|s.store| - 1] == e
    requires forall i :: 0 <= i < |ops| ==> Spares(ops[i], e)
    requires |TouchedBy(cfg, s, ops) - {e.key}| < cfg.maxSize
    requires now <= e.expireAt
    ensures Lookup(Run(cfg, s, ops).store, e.key, now) == Some(e.value)
  {
    assert s.store[|s.store| - 1 + 1..] == [];
    assert Behind(s.store, e, {});
    assert {} + (TouchedBy(cfg, s, ops) - {e.key}) == TouchedBy(cfg, s, ops) - {e.key};
    RetainedBehind(cfg, s, ops, e, {});
    RunKeepsValid(cfg, s, ops);
    FindOnly(Run(cfg, s, ops).store, e);
  }

  // ---------- Agreement with an unbounded map ----------

  /** The map a program would keep if nothing were ever evicted or swept. */
  function Written<V>(cfg: Config, m: map<string, Entry<V>>, op: Op<V>): map<string, Entry<V>> {
    match op
    case Get(_, _) => m
    case Set(key, value, ttl, now) => m[key := Entry(key, value, Deadline(cfg, ttl, now))]
    case Delete(key) => m - {key}
    case InvalidatePrefix(prefix) => map k | k in m && !(prefix <= k) :: m[k]
    case Clear => map[]
  }

  function WrittenBy<V>(cfg: Config, m: map<string, Entry<V>>, ops: seq<Op<V>>): map<string, Entry<V>>
    decreases |ops|
  {
    if ops == [] then m else WrittenBy(cfg, Written(cfg, m, ops[0]), ops[1..])
  }

  ghost predicate Agrees<V>(store: seq<Entry<V>>, m: map<string, Entry<V>>) {
    forall e :: e in store ==> e.key in m && m[e.key] == e
  }

  lemma StepAgrees<V>(cfg: Config, s: State<V>, m: map<string, Entry<V>>, op: Op<V>)
    requires Agrees(s.store, m)
    ensures Agrees(Step(cfg, s, op).store, Written(cfg, m, op))
  {
    match op {
      case Get(key, now) =>
        FindIsMember(s.store, key);
        WithoutLacks(s.store, key);
      case Set(key, value, ttl, now) =>
        var x := Entry(key, value, Deadline(cfg, ttl, now));
        var placed := Placed(s.store, x, cfg.maxSize);
        FindIsMember(s.store, key);
        WithoutLacks(s.store, key);
        forall e | e in placed ensures e == x || (e in s.store && e.key != key) {
        }
        KeepMembers(placed, Alive(now));
      case Delete(key) => WithoutLacks(s.store, key);
      case InvalidatePrefix(prefix) => KeepMembers(s.store, Outside(prefix));
      case Clear =>
    }
  }

  lemma {:induction false} RunAgrees<V>(cfg: Config, s: State<V>, m: map<string, Entry<V>>, ops: seq<Op<V>>)
    requires Agrees(s.store, m)
    ensures Agrees(Run(cfg, s, ops).store, WrittenBy(cfg, m, ops))
    decreases |ops|
  {
    if ops != [] {
      StepAgrees(cfg, s, m, ops[0]);
      RunAgrees(cfg, Step(cfg, s, ops[0]), Written(cfg, m, ops[0]), ops[1..]);
    }
  }

  /** No stale answers: a hit returns the value last set under the key, and it has not expired. */
  lemma HitsAreCurrent<V>(cfg: Config, start: real, ops: seq<Op<V>>, key: string, now: real)
    ensures var m := WrittenBy(cfg, map[], ops);
      var found := Lookup(Run(cfg, State([], start), ops).store, key, now);
      found.Some? ==> key in m && now <= m[key].expireAt && found.value == m[key].value
  {
    var empty: State<V> := State([], start);
    RunAgrees(cfg, empty, map[], ops);
    FindIsMember(Run(cfg, empty, ops).store, key);
  }
}
