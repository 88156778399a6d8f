/** The expiring cache over an LRU cache, and the store that flushes all of them. */
module TimedCache {
  import opened Wrappers
  import Lru
  import Ttl

  datatype TimedValue<V> = TimedValue(creation: int, timeout: int, value: V) {
    /** Strictly younger than its timeout. */
    predicate IsValid(now: int) {
      timeout > now - creation
    }
  }

  /** What a read at `now` returns. */
  function ValidAt<V>(entries: map<string, TimedValue<V>>, key: string, now: int): Option<TimedValue<V>> {
    if key in entries && entries[key].IsValid(now) then Some(entries[key]) else None
  }

  /** What a read at `now` leaves: an expired entry is removed. */
  function AfterRead<V>(entries: map<string, TimedValue<V>>, key: string, now: int): map<string, TimedValue<V>> {
    if key in entries && !entries[key].IsValid(now) then entries - {key} else entries
  }

  class TimedCache<V> {
    // The delegate.
    const cache: Lru.LRUCache<TimedValue<V>>

    constructor (delegate: Lru.LRUCache<TimedValue<V>>)
      ensures cache == delegate
    {
      cache := delegate;
    }

    ghost predicate Valid()
      reads cache
    {
      cache.Valid()
    }

    method GetTimeValue(key: string, now: int) returns (r: Option<TimedValue<V>>)
      requires Valid()
      modifies cache
      ensures Valid()
      ensures r == if key in old(cache.entries) &&
                      now - old(cache.entries)[key].creation < old(cache.entries)[key].timeout
                   then Some(old(cache.entries)[key]) else None
      ensures cache.entries == if r.Some? then old(cache.entries) else old(cache.entries) - {key}
    {
      var found := cache.Get(key);
      if found.Some? {
        if found.value.IsValid(now) {
          return found;
        }
        Remove(key);
      }
      r := None;
    }

    method PutTTL(key: string, value: V, ttl: int, now: int)
      requires Valid()
      modifies cache
      ensures Valid()
      ensures cache.View() == Lru.Added(old(cache.View()), cache.size, key, TimedValue(now, Ttl.Seconds(ttl), value))
    {
      cache.Put(key, TimedValue(now, Ttl.Seconds(ttl), value));
    }

    method Remove(key: string)
      requires Valid()
      modifies cache
      ensures Valid() && cache.entries == old(cache.entries) - {key}
    {
      cache.Remove(key);
    }

    method Clear()
      requires Valid()
      modifies cache
      ensures Valid() && cache.entries == map[]
    {
      cache.Clear();
    }
  }

  /** The process-wide store: one main cache and every cache registered with it. */
  class CacheStore<V> {
    const mainCache: Lru.LRUCache<string>
    var caches: seq<TimedCache<V>>

    ghost function Footprint(): set<object>
      reads this
    {
      {mainCache} + set c | c in caches :: c.cache
    }

    ghost predicate Valid()
      reads this, Footprint()
    {
      mainCache.Valid() && forall c :: c in caches ==> c.Valid()
    }

    constructor ()
      ensures Valid() && caches == [] && fresh(mainCache)
    {
      mainCache := new Lru.LRUCache<string>(43690);
      caches := [];
    }

    method RegisterCache(c: TimedCache<V>) returns (r: TimedCache<V>)
      requires Valid() && c.Valid()
      modifies this`caches
      ensures Valid() && r == c && caches == old(caches) + [c]
    {
      caches := caches + [c];
      r := c;
    }

    method ClearAllCaches()
      requires Valid()
      modifies Footprint()
      ensures Valid()
      ensures mainCache.entries == map[] && forall c :: c in caches ==> c.cache.entries == map[]
    {
      mainCache.Clear();
      for i := 0 to |caches|
        invariant Valid()
        invariant mainCache.entries == map[]
        invariant forall j :: 0 <= j < i ==> caches[j].cache.entries == map[]
      {
        caches[i].Clear();
      }
    }
  }
}
