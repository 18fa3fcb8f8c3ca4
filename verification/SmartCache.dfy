/** The cache object of backend/cache/smart_cache.py: an ordered dictionary that its methods update in place. */
module SmartCacheObject {
  import opened Prelude
  import opened CacheSpec
  import opened CachedFunction

  class SmartCache<V> {
    const config: Config
    var store: seq<Entry<V>>
    var lastCleanup: real

    ghost predicate Ok()
      reads this
    {
      Valid(config, Abstract())
    }

    ghost function Abstract(): State<V>
      reads this
    {
      State(store, lastCleanup)
    }

    constructor (maxSize: nat, defaultTtl: real, now: real)
      requires 1 <= maxSize
      ensures Ok() && config == Config(maxSize, defaultTtl, 60.0) && Abstract() == State([], now)
    {
      config := Config(maxSize, defaultTtl, 60.0);
      store := [];
      lastCleanup := now;
    }

    method Get(key: string, now: real) returns (value: Option<V>)
      requires Ok()
      modifies this
      ensures Ok() && Abstract() == Step(config, old(Abstract()), Op.Get(key, now))
      ensures value == Lookup(old(store), key, now)
    {
      GetKeepsValid(config, Abstract(), key, now);
      var entry := Find(store, key);
      if entry.None? {
        return None;
      }
      if now > entry.value.expireAt {
        store := Without(store, key);
        return None;
      }
      store := Without(store, key) + [entry.value];
      value := Some(entry.value.value);
    }

    method Set(key: string, value: V, ttl: Option<real>, now: real)
      requires Ok()
      modifies this
      ensures Ok() && Abstract() == Step(config, old(Abstract()), Op.Set(key, value, ttl, now))
    {
      StepKeepsValid(config, Abstract(), Op.Set(key, value, ttl, now));
      var lifetime := if ttl.Some? then ttl.value else config.defaultTtl;
      var entry := Entry(key, value, now + lifetime);
      if Find(store, key).Some? {
        store := Without(store, key) + [entry];
      } else {
        if |store| >= config.maxSize {
          store := store[1..];
        }
        store := store + [entry];
      }
      PlacedValid(old(store), entry, config.maxSize);
      if now - lastCleanup > config.cleanupInterval {
        Cleanup(now);
        lastCleanup := now;
      }
    }

    method Delete(key: string) returns (existed: bool)
      requires Ok()
      modifies this
      ensures Ok() && Abstract() == Step(config, old(Abstract()), Op.Delete(key))
      ensures existed <==> exists e :: e in old(store) && e.key == key
    {
      StepKeepsValid(config, Abstract(), Op.Delete(key));
      FindIsMember(store, key);
      existed := Find(store, key).Some?;
      if existed {
        store := Without(store, key);
      } else {
        KeepMembers(store, OtherThan(key));
      }
    }

    /** Removes the listed keys one after the other. */
    method DeleteAll(keys: seq<string>)
      modifies this`store
      ensures store == Keep(old(store), NotAmong(keys))
    {
      KeepMembers(store, NotAmong(keys[..0]));
      for i := 0 to |keys|
        invariant store == Keep(old(store), NotAmong(keys[..i]))
      {
        KeepTwice(old(store), NotAmong(keys[..i]), OtherThan(keys[i]), NotAmong(keys[..i + 1]));
        store := Without(store, keys[i]);
      }
      assert keys[..|keys|] == keys;
    }

    method InvalidatePrefix(prefix: string) returns (count: nat)
      requires Ok()
      modifies this
      ensures Ok() && Abstract() == Step(config, old(Abstract()), Op.InvalidatePrefix(prefix))
      ensures count == |old(store)| - |store|
    {
      StepKeepsValid(config, Abstract(), Op.InvalidatePrefix(prefix));
      var toDelete := KeysWhere(store, (e: Entry<V>) => prefix <= e.key);
      RemovedKeys(store, (e: Entry<V>) => prefix <= e.key, Outside(prefix));
      DeleteAll(toDelete);
      count := |toDelete|;
    }

    method Clear()
      modifies this
      ensures Ok() <== old(Ok())
      ensures Abstract() == Step(config, old(Abstract()), Op.Clear)
    {
      store := [];
    }

    /** Removes every expired entry. */
    method Cleanup(now: real)
      requires DistinctKeys(store)
      modifies this`store
      ensures store == Keep(old(store), Alive(now))
    {
      var expired := KeysWhere(store, (e: Entry<V>) => now > e.expireAt);
      RemovedKeys(store, (e: Entry<V>) => now > e.expireAt, Alive(now));
      DeleteAll(expired);
    }

    /** The wrapper made by `cached`, for the computed result of one call. */
    method CachedCall(key: string, computed: Option<V>, ttl: Option<real>, now: real, later: real)
      returns (result: Option<V>)
      requires Ok()
      modifies this
      ensures Ok() && Abstract() == AfterCall(config, old(Abstract()), key, computed, ttl, now, later)
      ensures result == CallAnswer(old(Abstract()), key, computed, now)
    {
      var cachedValue := Get(key, now);
      if cachedValue.Some? {
        return cachedValue;
      }
      result := computed;
      if result.Some? {
        Set(key, result.value, ttl, later);
      }
    }
  }

  function NotAmong<V>(keys: seq<string>): Entry<V> -> bool {
    (e: Entry<V>) => e.key !in keys
  }

  /** Keys of the entries that satisfy the test, in order. */
  function KeysWhere<V>(store: seq<Entry<V>>, p: Entry<V> -> bool): seq<string> {
    if store == [] then []
    else if p(store[0]) then [store[0].key] + KeysWhere(store[1..], p)
    else KeysWhere(store[1..], p)
  }

  lemma {:induction false} KeepTwice<V>(store: seq<Entry<V>>, p: Entry<V> -> bool, q: Entry<V> -> bool, r: Entry<V> -> bool)
    requires forall e :: e in store ==> (r(e) <==> p(e) && q(e))
    ensures Keep(Keep(store, p), q) == Keep(store, r)
  {
    if store != [] {
      KeepTwice(store[1..], p, q, r);
      if p(store[0]) {
        var kept := Keep(store[1..], p);
        assert ([store[0]] + kept)[1..] == kept;
      }
    }
  }

  lemma {:induction false} KeysWhereMembers<V>(store: seq<Entry<V>>, p: Entry<V> -> bool)
    ensures forall e :: e in store && p(e) ==> e.key in KeysWhere(store, p)
    ensures forall k :: k in KeysWhere(store, p) ==> exists i :: 0 <= i < |store| && store[i].key == k && p(store[i])
  {
    if store != [] {
      KeysWhereMembers(store[1..], p);
      forall k | k in KeysWhere(store, p) ensures exists i :: 0 <= i < |store| && store[i].key == k && p(store[i]) {
        if !(p(store[0]) && k == store[0].key) {
          assert k in KeysWhere(store[1..], p);
          var i :| 0 <= i < |store[1..]| && store[1..][i].key == k && p(store[1..][i]);
          assert store[i + 1].key == k && p(store[i + 1]);
        }
      }
    }
  }

  lemma {:induction false} KeysWhereCount<V>(store: seq<Entry<V>>, p: Entry<V> -> bool, q: Entry<V> -> bool)
    requires forall e :: e in store ==> q(e) == !p(e)
    ensures |KeysWhere(store, p)| == |store| - |Keep(store, q)|
  {
    if store != [] {
      KeysWhereCount(store[1..], p, q);
    }
  }

  /** With distinct keys, removing the keys of the unwanted entries keeps exactly the wanted ones. */
  lemma RemovedKeys<V>(store: seq<Entry<V>>, p: Entry<V> -> bool, q: Entry<V> -> bool)
    requires DistinctKeys(store)
    requires forall e :: e in store ==> q(e) == !p(e)
    ensures Keep(store, NotAmong(KeysWhere(store, p))) == Keep(store, q)
    ensures |KeysWhere(store, p)| == |store| - |Keep(store, q)|
  {
    var keys := KeysWhere(store, p);
    KeysWhereMembers(store, p);
    KeysWhereCount(store, p, q);
    forall e | e in store ensures (e.key !in keys) == q(e) {
      if e.key in keys {
        var i :| 0 <= i < |store| && store[i].key == e.key && p(store[i]);
        var j :| 0 <= j < |store| && store[j] == e;
        assert i == j;
      }
    }
    KeepAgrees(store, NotAmong(keys), q);
  }
}
