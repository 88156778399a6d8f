/** The size-bounded cache: a map plus its keys in order of use, newest first. */
module Lru {
  import opened Wrappers

  datatype Store<V> = Store(entries: map<string, V>, recency: seq<string>)

  predicate Distinct(keys: seq<string>) {
    forall i, j :: 0 <= i < j < |keys| ==> keys[i] != keys[j]
  }

  ghost predicate Consistent<V>(s: Store<V>, size: nat) {
    && Distinct(s.recency)
    && (forall k :: k in s.recency <==> k in s.entries)
    && |s.recency| <= size
  }

  function Without(keys: seq<string>, key: string): (r: seq<string>)
    ensures forall k :: k in r <==> k in keys && k != key
    ensures |r| <= |keys|
    ensures key in keys ==> |r| < |keys|
    ensures Distinct(keys) ==> Distinct(r)
  {
    if keys == [] then []
    else if keys[0] == key then Without(keys[1..], key)
    else
      assert Distinct(keys) ==> Distinct(keys[1..]) && keys[0] !in keys[1..] by {
        assert forall i :: 0 <= i < |keys| - 1 ==> keys[1..][i] == keys[i + 1];
      }
      [keys[0]] + Without(keys[1..], key)
  }

  function Touch<V>(s: Store<V>, key: string): Store<V> {
    if key in s.entries then s.(recency := [key] + Without(s.recency, key)) else s
  }

  function Deleted<V>(s: Store<V>, key: string): Store<V> {
    if key in s.entries then Store(s.entries - {key}, Without(s.recency, key)) else s
  }

  function Grown<V>(s: Store<V>, key: string, value: V): Store<V> {
    Store(s.entries[key := value], [key] + s.recency)
  }

  /** Insert or refresh; one key too many drops the one used longest ago. */
  function Added<V>(s: Store<V>, size: nat, key: string, value: V): Store<V> {
    if key in s.entries then Store(s.entries[key := value], [key] + Without(s.recency, key))
    else
      var grown := Grown(s, key, value);
      if |grown.recency| > size then Deleted(grown, grown.recency[|grown.recency| - 1]) else grown
  }

  lemma TouchKeeps<V>(s: Store<V>, size: nat, key: string)
    requires Consistent(s, size)
    ensures Consistent(Touch(s, key), size)
  {
  }

  lemma DeletedKeeps<V>(s: Store<V>, size: nat, key: string)
    requires Consistent(s, size)
    ensures Consistent(Deleted(s, key), size)
    ensures Deleted(s, key).entries == s.entries - {key}
  {
  }

  lemma KeyCount<V>(s: Store<V>, size: nat)
    requires Consistent(s, size)
    ensures |s.recency| == |s.entries|
  {
    DistinctCount(s.recency, s.entries.Keys);
  }

  lemma {:induction false} DistinctCount(keys: seq<string>, all: set<string>)
    requires Distinct(keys) && forall k :: k in keys <==> k in all
    ensures |keys| == |all|
  {
    if keys == [] {
      assert all == {};
    } else {
      var rest := keys[1..];
      assert forall i :: 0 <= i < |rest| ==> rest[i] == keys[i + 1];
      assert keys == [keys[0]] + rest;
      DistinctCount(rest, all - {keys[0]});
    }
  }

  lemma GrownKeeps<V>(s: Store<V>, size: nat, key: string, value: V)
    requires Consistent(s, size) && key !in s.entries
    ensures Consistent(Grown(s, key, value), size + 1)
  {
  }

  lemma DeletedShrinks<V>(s: Store<V>, size: nat, key: string)
    requires Consistent(s, size + 1) && key in s.entries
    ensures Consistent(Deleted(s, key), size)
  {
    DeletedKeeps(s, size + 1, key);
    assert key in s.recency;
  }

  /** A full store drops the key used longest ago. */
  lemma OldestDropped<V>(s: Store<V>, size: nat, key: string, value: V)
    requires Consistent(s, size) && size >= 1 && key !in s.entries && |s.recency| == size
    ensures var d := s.recency[size - 1];
            d in s.entries && d != key && Added(s, size, key, value) == Deleted(Grown(s, key, value), d)
  {
    var grown, d := Grown(s, key, value), s.recency[size - 1];
    assert d in s.recency && grown.recency[|grown.recency| - 1] == d;
  }

  /**
   An insert stores the value; it drops nothing while there is room or the key is there already, and at
   most one other key otherwise.
   */
  lemma AddedKeeps<V>(s: Store<V>, size: nat, key: string, value: V)
    requires Consistent(s, size) && size >= 1
    ensures var t := Added(s, size, key, value);
            && Consistent(t, size)
            && (if key in s.entries || |s.entries| < size then t.entries == s.entries[key := value]
                else exists d :: d in s.entries && d != key && t.entries == s.entries[key := value] - {d})
  {
    KeyCount(s, size);
    if key !in s.entries {
      var grown := Grown(s, key, value);
      GrownKeeps(s, size, key, value);
      if |s.entries| >= size {
        var d := s.recency[size - 1];
        OldestDropped(s, size, key, value);
        DeletedKeeps(grown, size + 1, d);
        DeletedShrinks(grown, size, d);
      } else {
        assert Added(s, size, key, value) == grown;
      }
    }
  }

  /** What was used recently stays: an insert never drops one of the `size - 1` newest keys. */
  lemma RecentStays<V>(s: Store<V>, size: nat, key: string, value: V, i: nat)
    requires Consistent(s, size) && i < |s.recency| && i < size - 1
    ensures s.recency[i] in Added(s, size, key, value).entries
  {
    assert s.recency[i] in s.recency;
    if key !in s.entries && |s.recency| >= size {
      OldestDropped(s, size, key, value);
      assert s.recency[i] != s.recency[size - 1];
    }
  }

  lemma AddedConsistent<V>(s: Store<V>, size: nat, key: string, value: V)
    requires Consistent(s, size) && size >= 1
    ensures Consistent(Added(s, size, key, value), size)
  {
    AddedKeeps(s, size, key, value);
  }

  class LRUCache<V> {
    const size: nat
    var entries: map<string, V>
    var recency: seq<string>

    ghost predicate Valid()
      reads this
    {
      size >= 1 && Consistent(View(), size)
    }

    ghost function View(): Store<V>
      reads this
    {
      Store(entries, recency)
    }

    constructor (size: nat)
      requires size >= 1
      ensures Valid() && this.size == size && entries == map[]
    {
      this.size := size;
      entries, recency := map[], [];
    }

    method ContainsKey(key: string) returns (r: bool)
      ensures r == (key in entries)
    {
      r := key in entries;
    }

    method Get(key: string) returns (r: Option<V>)
      requires Valid()
      modifies this`recency
      ensures Valid() && View() == Touch(old(View()), key)
      ensures r == if key in entries then Some(entries[key]) else None
    {
      TouchKeeps(View(), size, key);
      if key in entries {
        recency := [key] + Without(recency, key);
        r := Some(entries[key]);
      } else {
        r := None;
      }
    }

    method RemoveOldest()
      requires recency != [] && recency[|recency| - 1] in entries
      modifies this
      ensures View() == Deleted(old(View()), old(recency)[|old(recency)| - 1])
    {
      var oldest := recency[|recency| - 1];
      entries, recency := entries - {oldest}, Without(recency, oldest);
    }

    method Put(key: string, value: V)
      requires Valid()
      modifies this
      ensures Valid() && View() == Added(old(View()), size, key, value)
    {
      ghost var before := View();
      AddedConsistent(before, size, key, value);
      if key in entries {
        entries, recency := entries[key := value], [key] + Without(recency, key);
      } else {
        entries, recency := entries[key := value], [key] + recency;
        if |recency| > size {
          assert before.recency[|before.recency| - 1] in before.recency;
          assert recency[|recency| - 1] == before.recency[|before.recency| - 1];
          RemoveOldest();
        }
      }
    }

    method Remove(key: string)
      requires Valid()
      modifies this
      ensures Valid() && View() == Deleted(old(View()), key)
      ensures entries == old(entries) - {key}
    {
      DeletedKeeps(View(), size, key);
      if key in entries {
        entries, recency := entries - {key}, Without(recency, key);
      }
    }

    method Clear()
      requires Valid()
      modifies this
      ensures Valid() && entries == map[]
    {
      entries, recency := map[], [];
    }
  }
}
