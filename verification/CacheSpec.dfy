/** The least-recently-used cache with expiry of backend/cache/smart_cache.py, as a state machine on values. */
module CacheSpec {
  import opened Prelude

  datatype Entry<V> = Entry(key: string, value: V, expireAt: real)

  /** Entries from least to most recently used, and the time of the last cleanup. */
  datatype State<V> = State(store: seq<Entry<V>>, lastCleanup: real)

  datatype Config = Config(maxSize: nat, defaultTtl: real, cleanupInterval: real)

  /** One call; the clock is read once per call. */
  datatype Op<V> =
    | Get(key: string, now: real)
    | Set(key: string, value: V, ttl: Option<real>, now: real)
    | Delete(key: string)
    | InvalidatePrefix(prefix: string)
    | Clear

  // ---------- Stores ----------

  function Keys<V>(store: seq<Entry<V>>): set<string> {
    set i | 0 <= i < |store| :: store[i].key
  }

  ghost predicate DistinctKeys<V>(store: seq<Entry<V>>) {
    forall i, j :: 0 <= i < j < |store| ==> store[i].key != store[j].key
  }

  function Find<V>(store: seq<Entry<V>>, key: string): Option<Entry<V>> {
    if store == [] then None
    else if store[0].key == key then Some(store[0])
    else Find(store[1..], key)
  }

  function Keep<V>(store: seq<Entry<V>>, p: Entry<V> -> bool): seq<Entry<V>> {
    if store == [] then []
    else if p(store[0]) then [store[0]] + Keep(store[1..], p)
    else Keep(store[1..], p)
  }

  function OtherThan<V>(key: string): Entry<V> -> bool {
    (e: Entry<V>) => e.key != key
  }

  function Outside<V>(prefix: string): Entry<V> -> bool {
    (e: Entry<V>) => !(prefix <= e.key)
  }

  function Alive<V>(now: real): Entry<V> -> bool {
    (e: Entry<V>) => now <= e.expireAt
  }

  function Without<V>(store: seq<Entry<V>>, key: string): seq<Entry<V>> {
    Keep(store, OtherThan(key))
  }

  // ---------- Operations ----------

  /** What `get` returns. */
  function Lookup<V>(store: seq<Entry<V>>, key: string, now: real): Option<V> {
    var entry := Find(store, key);
    if entry.Some? && now <= entry.value.expireAt then Some(entry.value.value) else None
  }

  /** A hit moves the entry to the recent end; an expired entry is removed. */
  function AfterGet<V>(store: seq<Entry<V>>, key: string, now: real): seq<Entry<V>> {
    var entry := Find(store, key);
    if entry.None? then store
    else if now > entry.value.expireAt then Without(store, key)
    else Without(store, key) + [entry.value]
  }

  /** The entry goes to the recent end; a new key may push out the oldest entry. */
  function Placed<V>(store: seq<Entry<V>>, entry: Entry<V>, maxSize: nat): seq<Entry<V>> {
    if Find(store, entry.key).Some? then Without(store, entry.key) + [entry]
    else if |store| >= maxSize && store != [] then store[1..] + [entry]
    else store + [entry]
  }

  function Deadline(cfg: Config, ttl: Option<real>, now: real): real {
    now + if ttl.Some? then ttl.value else cfg.defaultTtl
  }

  function AfterSet<V>(cfg: Config, s: State<V>, key: string, value: V, ttl: Option<real>, now: real): State<V> {
    var placed := Placed(s.store, Entry(key, value, Deadline(cfg, ttl, now)), cfg.maxSize);
    if now - s.lastCleanup > cfg.cleanupInterval then State(Keep(placed, Alive(now)), now)
    else State(placed, s.lastCleanup)
  }

  function Step<V>(cfg: Config, s: State<V>, op: Op<V>): State<V> {
    match op
    case Get(key, now) => s.(store := AfterGet(s.store, key, now))
    case Set(key, value, ttl, now) => AfterSet(cfg, s, key, value, ttl, now)
    case Delete(key) => s.(store := Without(s.store, key))
    case InvalidatePrefix(prefix) => s.(store := Keep(s.store, Outside(prefix)))
    case Clear => s.(store := [])
  }

  function Run<V>(cfg: Config, s: State<V>, ops: seq<Op<V>>): State<V>
    decreases |ops|
  {
    if ops == [] then s else Run(cfg, Step(cfg, s, ops[0]), ops[1..])
  }

  ghost predicate Valid<V>(cfg: Config, s: State<V>) {
    1 <= cfg.maxSize && |s.store| <= cfg.maxSize && DistinctKeys(s.store)
  }

  // ---------- Lemmas about stores ----------

  lemma {:induction false} KeepMembers<V>(store: seq<Entry<V>>, p: Entry<V> -> bool)
    ensures |Keep(store, p)| <= |store|
    ensures forall e :: e in Keep(store, p) ==> e in store && p(e)
    ensures forall e :: e in store && p(e) ==> e in Keep(store, p)
    ensures (forall e :: e in store ==> p(e)) ==> Keep(store, p) == store
  {
    if store != [] {
      KeepMembers(store[1..], p);
      assert store == [store[0]] + store[1..];
    }
  }

  lemma {:induction false} KeepDistinct<V>(store: seq<Entry<V>>, p: Entry<V> -> bool)
    requires DistinctKeys(store)
    ensures DistinctKeys(Keep(store, p))
  {
    if store != [] {
      KeepDistinct(store[1..], p);
      KeepMembers(store[1..], p);
      var rest := Keep(store[1..], p);
      forall j | 0 <= j < |rest| ensures rest[j].key != store[0].key {
        var e := rest[j];
        assert e in rest;
        assert e in store[1..];
      }
    }
  }

  lemma {:induction false} KeepAgrees<V>(store: seq<Entry<V>>, p: Entry<V> -> bool, q: Entry<V> -> bool)
    requires forall e :: e in store ==> p(e) == q(e)
    ensures Keep(store, p) == Keep(store, q)
  {
    if store != [] {
      KeepAgrees(store[1..], p, q);
    }
  }

  lemma {:induction false} FindIsMember<V>(store: seq<Entry<V>>, key: string)
    ensures Find(store, key).Some? ==> Find(store, key).value in store && Find(store, key).value.key == key
    ensures Find(store, key).None? ==> forall e :: e in store ==> e.key != key
  {
    if store != [] && store[0].key != key {
      FindIsMember(store[1..], key);
      assert store == [store[0]] + store[1..];
    }
  }

  lemma {:induction false} FindOnly<V>(store: seq<Entry<V>>, e: Entry<V>)
    requires DistinctKeys(store) && e in store
    ensures Find(store, e.key) == Some(e)
  {
    if store[0].key == e.key {
      var i :| 0 <= i < |store| && store[i] == e;
    } else {
      FindOnly(store[1..], e);
    }
  }

  lemma AppendDistinct<V>(store: seq<Entry<V>>, e: Entry<V>)
    requires DistinctKeys(store) && forall x :: x in store ==> x.key != e.key
    ensures DistinctKeys(store + [e])
  {
    forall i | 0 <= i < |store| ensures store[i].key != e.key {
      assert store[i] in store;
    }
  }

  lemma WithoutLacks<V>(store: seq<Entry<V>>, key: string)
    ensures forall e :: e in Without(store, key) ==> e.key != key && e in store
    ensures forall e :: e in store && e.key != key ==> e in Without(store, key)
  {
    KeepMembers(store, OtherThan(key));
  }

  lemma WithoutShorter<V>(store: seq<Entry<V>>, key: string)
    requires Find(store, key).Some?
    ensures |Without(store, key)| < |store|
    decreases |store|
  {
    KeepMembers(store[1..], OtherThan(key));
    if store[0].key != key {
      WithoutShorter(store[1..], key);
    }
  }

  // ---------- Size and uniqueness over every run ----------

  lemma GetKeepsValid<V>(cfg: Config, s: State<V>, key: string, now: real)
    requires Valid(cfg, s)
    ensures Valid(cfg, Step(cfg, s, Get(key, now)))
  {
    var entry := Find(s.store, key);
    if entry.Some? {
      FindIsMember(s.store, key);
      KeepDistinct(s.store, OtherThan(key));
      WithoutShorter(s.store, key);
      WithoutLacks(s.store, key);
      AppendDistinct(Without(s.store, key), entry.value);
    }
  }

  lemma PlacedValid<V>(store: seq<Entry<V>>, entry: Entry<V>, maxSize: nat)
    requires 1 <= maxSize && |store| <= maxSize && DistinctKeys(store)
    ensures |Placed(store, entry, maxSize)| <= maxSize
    ensures DistinctKeys(Placed(store, entry, maxSize))
  {
    FindIsMember(store, entry.key);
    if Find(store, entry.key).Some? {
      KeepDistinct(store, OtherThan(entry.key));
      WithoutShorter(store, entry.key);
      WithoutLacks(store, entry.key);
      AppendDistinct(Without(store, entry.key), entry);
    } else if |store| >= maxSize && store != [] {
      assert forall e :: e in store[1..] ==> e in store;
      AppendDistinct(store[1..], entry);
    } else {
      AppendDistinct(store, entry);
    }
  }

  lemma StepKeepsValid<V>(cfg: Config, s: State<V>, op: Op<V>)
    requires Valid(cfg, s)
    ensures Valid(cfg, Step(cfg, s, op))
  {
    match op {
      case Get(key, now) => GetKeepsValid(cfg, s, key, now);
      case Set(key, value, ttl, now) =>
        var entry := Entry(key, value, Deadline(cfg, ttl, now));
        PlacedValid(s.store, entry, cfg.maxSize);
        KeepMembers(Placed(s.store, entry, cfg.maxSize), Alive(now));
        KeepDistinct(Placed(s.store, entry, cfg.maxSize), Alive(now));
      case Delete(key) =>
        KeepMembers(s.store, OtherThan(key));
        KeepDistinct(s.store, OtherThan(key));
      case InvalidatePrefix(prefix) =>
        KeepMembers(s.store, Outside(prefix));
        KeepDistinct(s.store, Outside(prefix));
      case Clear =>
    }
  }

  /** The cache never outgrows its limit and never holds a key twice. */
  lemma {:induction false} RunKeepsValid<V>(cfg: Config, s: State<V>, ops: seq<Op<V>>)
    requires Valid(cfg, s)
    ensures Valid(cfg, Run(cfg, s, ops))
    decreases |ops|
  {
    if ops != [] {
      StepKeepsValid(cfg, s, ops[0]);
      RunKeepsValid(cfg, Step(cfg, s, ops[0]), ops[1..]);
    }
  }
}
