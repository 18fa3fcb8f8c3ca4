/** What each operation of backend/cache/smart_cache.py does to a later look-up of any key. */
module CacheEffects {
  import opened Prelude
  import opened CacheSpec

  lemma {:induction false} FindKept<V>(store: seq<Entry<V>>, p: Entry<V> -> bool, key: string)
    ensures (forall e :: e in store && e.key == key ==> p(e)) ==> Find(Keep(store, p), key) == Find(store, key)
    ensures (forall e :: e in store && e.key == key ==> !p(e)) ==> Find(Keep(store, p), key) == None
  {
    if store != [] {
      FindKept(store[1..], p, key);
      assert store == [store[0]] + store[1..];
      if p(store[0]) {
        FindCons(store[0], Keep(store[1..], p), key);
      }
    }
  }

  lemma FindCons<V>(e: Entry<V>, rest: seq<Entry<V>>, key: string)
    ensures Find([e] + rest, key) == if e.key == key then Some(e) else Find(rest, key)
  {
    assert ([e] + rest)[1..] == rest;
  }

  lemma {:induction false} FindAppended<V>(store: seq<Entry<V>>, e: Entry<V>, key: string)
    ensures Find(store + [e], key) ==
      if Find(store, key).Some? then Find(store, key) else if e.key == key then Some(e) else None
  {
    if store == [] {
      assert store + [e] == [e];
      FindCons(e, [], key);
    } else {
      FindAppended(store[1..], e, key);
      assert (store + [e])[1..] == store[1..] + [e];
    }
  }

  lemma FindWithout<V>(store: seq<Entry<V>>, removed: string, key: string)
    ensures Find(Without(store, removed), key) == if key == removed then None else Find(store, key)
  {
    FindKept(store, OtherThan(removed), key);
  }

  lemma FindMoved<V>(store: seq<Entry<V>>, e: Entry<V>, key: string)
    ensures Find(Without(store, e.key) + [e], key) == if key == e.key then Some(e) else Find(store, key)
  {
    FindWithout(store, e.key, key);
    FindAppended(Without(store, e.key), e, key);
  }

  /** The entry the store evicts for a new key: its oldest, when it is full. */
  predicate Evicts<V>(store: seq<Entry<V>>, maxSize: nat, added: string, key: string) {
    store != [] && |store| >= maxSize && Find(store, added).None? && store[0].key == key
  }

  lemma FindPlaced<V>(store: seq<Entry<V>>, e: Entry<V>, maxSize: nat, key: string)
    requires DistinctKeys(store)
    ensures Find(Placed(store, e, maxSize), key) ==
      if key == e.key then Some(e) else if Evicts(store, maxSize, e.key, key) then None else Find(store, key)
  {
    if Find(store, e.key).Some? {
      FindMoved(store, e, key);
    } else if |store| >= maxSize && store != [] {
      FindAppended(store[1..], e, key);
      FindAppended(store[1..], e, e.key);
      OldestOnly(store, key);
    } else {
      FindAppended(store, e, key);
    }
  }

  lemma OldestOnly<V>(store: seq<Entry<V>>, key: string)
    requires store != [] && DistinctKeys(store)
    ensures Find(store[1..], key) == if store[0].key == key then None else Find(store, key)
  {
    FindIsMember(store[1..], key);
    forall e | e in store[1..] ensures e.key != store[0].key {
      var i :| 0 <= i < |store[1..]| && store[1..][i] == e;
      assert store[i + 1] == e;
    }
  }

  /** The cleanup within `set` removes nothing that a later look-up would have found. */
  lemma LookupCleaned<V>(store: seq<Entry<V>>, now: real, key: string, later: real)
    requires now <= later && DistinctKeys(store)
    ensures Lookup(Keep(store, Alive(now)), key, later) == Lookup(store, key, later)
  {
    FindIsMember(store, key);
    FindKept(store, Alive(now), key);
    if Find(store, key).Some? {
      var e := Find(store, key).value;
      forall d | d in store && d.key == key ensures d == e {
        FindOnly(store, d);
      }
    }
  }

  /**
   * After `set`, at whatever time, the key is found with its value until its time is over; every other
   * key is found as before, except the oldest of a full store when the key is new.
   */
  lemma SetThenGet<V>(cfg: Config, s: State<V>, key: string, value: V, ttl: Option<real>, now: real, other: string,
                      later: real)
    requires Valid(cfg, s) && now <= later
    ensures var after := Step(cfg, s, Set(key, value, ttl, now)).store;
      var lifetime := if ttl.Some? then ttl.value else cfg.defaultTtl;
      && Lookup(after, key, later) == (if later <= now + lifetime then Some(value) else None)
      && (other != key ==>
            Lookup(after, other, later) ==
              if Evicts(s.store, cfg.maxSize, key, other) then None else Lookup(s.store, other, later))
  {
    var e := Entry(key, value, Deadline(cfg, ttl, now));
    var placed := Placed(s.store, e, cfg.maxSize);
    PlacedValid(s.store, e, cfg.maxSize);
    FindPlaced(s.store, e, cfg.maxSize, key);
    FindPlaced(s.store, e, cfg.maxSize, other);
    LookupCleaned(placed, now, key, later);
    LookupCleaned(placed, now, other, later);
  }

  /** A look-up changes no later one: it moves a live entry and removes a dead one. */
  lemma GetThenGet<V>(cfg: Config, s: State<V>, key: string, now: real, other: string, later: real)
    requires now <= later
    ensures Lookup(Step(cfg, s, Get(key, now)).store, other, later) == Lookup(s.store, other, later)
  {
    FindIsMember(s.store, key);
    FindWithout(s.store, key, other);
    if Find(s.store, key).Some? {
      FindMoved(s.store, Find(s.store, key).value, other);
    }
  }

  /** Removal is exact: the key named, the keys with the prefix, or all of them, and no other. */
  lemma RemoveThenGet<V>(cfg: Config, s: State<V>, key: string, prefix: string, other: string, later: real)
    ensures Lookup(Step(cfg, s, Delete(key)).store, other, later) ==
      if other == key then None else Lookup(s.store, other, later)
    ensures Lookup(Step(cfg, s, InvalidatePrefix(prefix)).store, other, later) ==
      if |prefix| <= |other| && other[..|prefix|] == prefix then None else Lookup(s.store, other, later)
    ensures Lookup(Step(cfg, s, Clear).store, other, later) == None
  {
    FindWithout(s.store, key, other);
    FindKept(s.store, Outside(prefix), other);
  }
}
