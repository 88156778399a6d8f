/** Lists looked up by a key of their elements, and the map such a list stands for. */
module KeyedList {

  /** First element with the key, or -1. */
  function Find<T, K(==)>(list: seq<T>, key: T -> K, k: K): (i: int)
    ensures i == -1 || (0 <= i < |list| && key(list[i]) == k && forall j :: 0 <= j < i ==> key(list[j]) != k)
    ensures i == -1 ==> forall j :: 0 <= j < |list| ==> key(list[j]) != k
  {
    if list == [] then -1
    else if key(list[0]) == k then 0
    else
      var rest := Find(list[1..], key, k);
      assert forall j :: 1 <= j < |list| ==> list[j] == list[1..][j - 1];
      if rest == -1 then -1 else rest + 1
  }

  lemma FirstIs<T, K>(list: seq<T>, key: T -> K, k: K, i: int)
    requires 0 <= i < |list| && key(list[i]) == k && forall j :: 0 <= j < i ==> key(list[j]) != k
    ensures Find(list, key, k) == i
  {
  }

  /** What is in both lists comes in the same order. */
  ghost predicate SameOrder<T, K(!new)>(before: seq<T>, after: seq<T>, key: T -> K) {
    forall k, l ::
      Find(before, key, k) != -1 && Find(after, key, k) != -1 &&
      Find(before, key, l) != -1 && Find(after, key, l) != -1 ==>
        (Find(before, key, k) < Find(before, key, l) <==> Find(after, key, k) < Find(after, key, l))
  }

  /** The first element of a key counts. */
  function AsMap<T, K(==)>(list: seq<T>, key: T -> K): (m: map<K, T>) {
    if list == [] then map[] else AsMap(list[1..], key)[key(list[0]) := list[0]]
  }

  /** No two elements share a key. */
  predicate DistinctKeys<T, K(==)>(list: seq<T>, key: T -> K) {
    list == [] || (key(list[0]) !in AsMap(list[1..], key) && DistinctKeys(list[1..], key))
  }

  /** The map and the search agree. */
  lemma {:induction false} MapFinds<T, K>(list: seq<T>, key: T -> K, k: K)
    ensures k in AsMap(list, key) <==> Find(list, key, k) != -1
    ensures k in AsMap(list, key) ==> AsMap(list, key)[k] == list[Find(list, key, k)]
  {
    if list != [] {
      MapFinds(list[1..], key, k);
    }
  }

  /** The element is taken out; the others keep their order. */
  function RemoveAt<T>(list: seq<T>, i: int): (r: seq<T>)
    requires 0 <= i < |list|
    ensures |r| == |list| - 1
    ensures forall j :: 0 <= j < |r| ==> r[j] == list[if j < i then j else j + 1]
  {
    list[..i] + list[i + 1..]
  }

  lemma {:induction false} DistinctMeans<T, K>(list: seq<T>, key: T -> K)
    ensures DistinctKeys(list, key) <==> forall i, j :: 0 <= i < j < |list| ==> key(list[i]) != key(list[j])
  {
    if list != [] {
      var rest := list[1..];
      DistinctMeans(rest, key);
      MapFinds(rest, key, key(list[0]));
      assert forall j :: 0 <= j < |rest| ==> rest[j] == list[j + 1];
      if DistinctKeys(list, key) {
        forall i, j | 0 <= i < j < |list|
          ensures key(list[i]) != key(list[j])
        {
          assert list[j] == rest[j - 1];
          assert i > 0 ==> list[i] == rest[i - 1];
        }
      } else if DistinctKeys(rest, key) {
        var j := Find(rest, key, key(list[0]));
        assert key(list[0]) == key(list[j + 1]);
      } else {
        var i, j :| 0 <= i < j < |rest| && key(rest[i]) == key(rest[j]);
        assert key(list[i + 1]) == key(list[j + 1]);
      }
    }
  }

  lemma Commute<T, K>(m: map<K, T>, k: K, x: T, l: K, y: T)
    requires k != l
    ensures m[k := x][l := y] == m[l := y][k := x]
    ensures (m - {k})[l := y] == m[l := y] - {k}
  {
  }

  lemma {:induction false} Append<T, K>(list: seq<T>, key: T -> K, x: T)
    requires key(x) !in AsMap(list, key)
    ensures AsMap(list + [x], key) == AsMap(list, key)[key(x) := x]
    ensures DistinctKeys(list + [x], key) <==> DistinctKeys(list, key)
  {
    if list == [] {
      assert list + [x] == [x] && [x][1..] == [];
    } else {
      var first, rest := list[0], list[1..];
      assert (list + [x])[1..] == rest + [x] && (list + [x])[0] == first;
      Append(rest, key, x);
      Commute(AsMap(rest, key), key(x), x, key(first), first);
    }
  }

  /** Appending keeps keys distinct exactly when the key is new. */
  lemma AppendDistinct<T, K>(list: seq<T>, key: T -> K, x: T)
    requires DistinctKeys(list, key)
    ensures DistinctKeys(list + [x], key) <==> key(x) !in AsMap(list, key)
  {
    if key(x) !in AsMap(list, key) {
      Append(list, key, x);
    } else {
      MapFinds(list, key, key(x));
      DistinctMeans(list + [x], key);
      var i := Find(list, key, key(x));
      assert key((list + [x])[i]) == key((list + [x])[|list|]);
    }
  }

  lemma {:induction false} Member<T, K>(list: seq<T>, key: T -> K, i: int)
    requires 0 <= i < |list|
    ensures key(list[i]) in AsMap(list, key)
  {
    if i > 0 {
      Member(list[1..], key, i - 1);
    }
  }

  /** Taking an element out removes its key from the map; the others keep their order. */
  lemma {:induction false} Remove<T, K>(list: seq<T>, key: T -> K, i: int)
    requires 0 <= i < |list| && DistinctKeys(list, key)
    ensures AsMap(RemoveAt(list, i), key) == AsMap(list, key) - {key(list[i])}
    ensures DistinctKeys(RemoveAt(list, i), key)
  {
    var first, rest := list[0], list[1..];
    if i == 0 {
      assert RemoveAt(list, 0) == rest;
      assert key(first) !in AsMap(rest, key);
    } else {
      var less := RemoveAt(rest, i - 1);
      assert RemoveAt(list, i)[0] == first && RemoveAt(list, i)[1..] == less;
      Remove(rest, key, i - 1);
      assert list[i] == rest[i - 1];
      Member(rest, key, i - 1);
      Commute(AsMap(rest, key), key(list[i]), list[i], key(first), first);
    }
  }

  /**
   Overwriting an element in place moves its key; keys stay distinct exactly when no other element has
   the new key.
   */
  lemma {:induction false} Replace<T, K>(list: seq<T>, key: T -> K, i: int, x: T)
    requires 0 <= i < |list| && DistinctKeys(list, key)
    ensures DistinctKeys(list[i := x], key) <==> key(x) !in AsMap(list, key) - {key(list[i])}
    ensures DistinctKeys(list[i := x], key) ==>
              AsMap(list[i := x], key) == (AsMap(list, key) - {key(list[i])})[key(x) := x]
    ensures AsMap(list[i := x], key).Keys == AsMap(list, key).Keys - {key(list[i])} + {key(x)}
  {
    var first, rest := list[0], list[1..];
    assert key(first) !in AsMap(rest, key);
    if i == 0 {
      assert list[0 := x][1..] == rest;
      assert AsMap(list, key) - {key(first)} == AsMap(rest, key);
    } else {
      var updated := rest[i - 1 := x];
      var oldKey := key(list[i]);
      assert list[i := x][1..] == updated && list[i := x][0] == first && list[i] == rest[i - 1];
      Replace(rest, key, i - 1, x);
      Member(rest, key, i - 1);
      Commute(AsMap(rest, key), oldKey, x, key(first), first);
      if key(x) != key(first) {
        Commute(AsMap(rest, key) - {oldKey}, key(x), x, key(first), first);
      }
    }
  }
}
