/** Least recently used: exactly when a key is dropped, over any run of inserts and reads. */
module LruRuns {
  import opened Lru

  datatype Op<V> = Get(key: string) | Put(key: string, value: V)

  function Do<V>(s: Store<V>, size: nat, op: Op<V>): Store<V> {
    match op
    case Get(key) => Touch(s, key)
    case Put(key, value) => Added(s, size, key, value)
  }

  function Run<V>(s: Store<V>, size: nat, ops: seq<Op<V>>): Store<V> {
    if ops == [] then s else Do(Run(s, size, ops[..|ops| - 1]), size, ops[|ops| - 1])
  }

  /** An insert uses its key, a read only when it finds it. */
  predicate Uses<V>(s: Store<V>, op: Op<V>) {
    op.Put? || op.key in s.entries
  }

  /** The keys used. */
  function Used<V>(s: Store<V>, size: nat, ops: seq<Op<V>>): set<string> {
    if ops == [] then {}
    else
      var front, last := ops[..|ops| - 1], ops[|ops| - 1];
      Used(s, size, front) + if Uses(Run(s, size, front), last) then {last.key} else {}
  }

  predicate Others<V>(ops: seq<Op<V>>, key: string) {
    forall i :: 0 <= i < |ops| ==> ops[i].key != key
  }

  // ---- One step ----

  lemma {:induction false} WithoutIs(keys: seq<string>, i: nat)
    requires Distinct(keys) && i < |keys|
    ensures Without(keys, keys[i]) == keys[..i] + keys[i + 1..]
  {
    if i > 0 {
      assert forall a :: 0 <= a < |keys| - 1 ==> keys[1..][a] == keys[a + 1];
      WithoutIs(keys[1..], i - 1);
      assert keys[..i] == [keys[0]] + keys[1..][..i - 1] && keys[i + 1..] == keys[1..][i..];
    } else {
      WithoutAbsent(keys[1..], keys[0]);
      assert keys[..0] == [] && [] + keys[1..] == keys[1..];
      assert keys[0] !in keys[1..] by {
        assert forall a :: 0 <= a < |keys| - 1 ==> keys[1..][a] == keys[a + 1];
      }
    }
  }

  lemma {:induction false} WithoutAbsent(keys: seq<string>, key: string)
    ensures key !in keys ==> Without(keys, key) == keys
  {
    if keys != [] {
      WithoutAbsent(keys[1..], key);
    }
  }

  function SetOf(keys: seq<string>): set<string> {
    set k | k in keys
  }

  /** The used keys stand in front of `key`, which has not been used since. */
  ghost predicate Behind<V>(s: Store<V>, size: nat, key: string, used: set<string>) {
    && Consistent(s, size) && |used| < |s.recency|
    && s.recency[|used|] == key && SetOf(s.recency[..|used|]) == used
  }

  lemma FrontKept(keys: seq<string>, n: nat, i: nat)
    requires Distinct(keys) && i < n < |keys|
    ensures var moved := [keys[i]] + Without(keys, keys[i]);
            n < |moved| && moved[n] == keys[n] && SetOf(moved[..n]) == SetOf(keys[..n])
  {
    var x := keys[i];
    WithoutIs(keys, i);
    Rotated(keys, n, i);
    SameMembers([x], keys[..i], keys[i + 1..n]);
  }

  lemma Rotated(keys: seq<string>, n: nat, i: nat)
    requires i < n < |keys|
    ensures var moved := [keys[i]] + (keys[..i] + keys[i + 1..]);
            && |moved| == |keys| && moved[n] == keys[n]
            && moved[..n] == [keys[i]] + keys[..i] + keys[i + 1..n]
            && keys[..n] == keys[..i] + [keys[i]] + keys[i + 1..n]
  {
  }

  lemma FrontGrows(keys: seq<string>, n: nat, i: nat)
    requires Distinct(keys) && n < i < |keys|
    ensures var moved := [keys[i]] + Without(keys, keys[i]);
            n + 1 < |moved| && moved[n + 1] == keys[n] && SetOf(moved[..n + 1]) == SetOf(keys[..n]) + {keys[i]}
  {
    WithoutIs(keys, i);
    assert ([keys[i]] + (keys[..i] + keys[i + 1..]))[..n + 1] == [keys[i]] + keys[..n];
  }

  lemma SameMembers(a: seq<string>, b: seq<string>, c: seq<string>)
    ensures SetOf(a + b + c) == SetOf(b + a + c) == SetOf(a) + SetOf(b) + SetOf(c)
  {
  }

  lemma PrefixSize(keys: seq<string>, n: nat)
    requires Distinct(keys) && n <= |keys|
    ensures |SetOf(keys[..n])| == n
  {
    DistinctCount(keys[..n], SetOf(keys[..n]));
  }

  /** A used key moves to the front: the same keys are in front. */
  lemma UsedAgain<V>(s: Store<V>, t: Store<V>, size: nat, key: string, used: set<string>, i: nat)
    requires Behind(s, size, key, used) && i < |used|
    requires Consistent(t, size) && t.recency == [s.recency[i]] + Without(s.recency, s.recency[i])
    ensures Behind(t, size, key, used + {s.recency[i]})
  {
    FrontKept(s.recency, |used|, i);
    assert s.recency[..|used|][i] == s.recency[i];
    assert used + {s.recency[i]} == used;
  }

  /** A key that was behind is now in front. */
  lemma UsedFirst<V>(s: Store<V>, t: Store<V>, size: nat, key: string, used: set<string>, i: nat)
    requires Behind(s, size, key, used) && |used| < i < |s.recency|
    requires Consistent(t, size) && t.recency == [s.recency[i]] + Without(s.recency, s.recency[i])
    ensures Behind(t, size, key, used + {s.recency[i]})
  {
    FrontGrows(s.recency, |used|, i);
    PrefixSize(t.recency, |used| + 1);
  }

  /** A new key in front of the others, of which at most those behind `key` are lost. */
  lemma NewInFront<V>(s: Store<V>, t: Store<V>, size: nat, key: string, used: set<string>, x: string, m: nat)
    requires Behind(s, size, key, used) && |used| < m <= |s.recency| && x !in s.recency
    requires Consistent(t, size) && t.recency == [x] + s.recency[..m]
    ensures Behind(t, size, key, used + {x}) && |used + {x}| == |used| + 1
  {
    NewPrefix(s.recency, |used|, x, m);
    PrefixSize(t.recency, |used| + 1);
  }

  lemma NewPrefix(keys: seq<string>, n: nat, x: string, m: nat)
    requires n < m <= |keys|
    ensures var longer := [x] + keys[..m];
            longer[n + 1] == keys[n] && SetOf(longer[..n + 1]) == SetOf(keys[..n]) + {x}
  {
    assert ([x] + keys[..m])[..n + 1] == [x] + keys[..n];
  }

  lemma RecencyWithRoom<V>(s: Store<V>, size: nat, x: string, value: V)
    requires Consistent(s, size) && x !in s.entries && |s.recency| < size
    ensures Added(s, size, x, value).recency == [x] + s.recency[..|s.recency|] && x !in s.recency
  {
    assert s.recency[..|s.recency|] == s.recency;
  }

  lemma WithoutLast(keys: seq<string>)
    requires keys != [] && Distinct(keys)
    ensures Without(keys, keys[|keys| - 1]) == keys[..|keys| - 1]
  {
    WithoutIs(keys, |keys| - 1);
    NoRest(keys);
  }

  lemma NoRest(keys: seq<string>)
    requires keys != []
    ensures keys[..|keys| - 1] + keys[|keys| - 1 + 1..] == keys[..|keys| - 1]
  {
  }

  lemma FrontOfGrown(keys: seq<string>, x: string)
    requires keys != []
    ensures ([x] + keys)[..|keys|] == [x] + keys[..|keys| - 1] && ([x] + keys)[|keys|] == keys[|keys| - 1]
  {
  }

  lemma RecencyWhenFull<V>(s: Store<V>, size: nat, x: string, value: V)
    requires Consistent(s, size) && size >= 1 && x !in s.entries && |s.recency| == size
    ensures Added(s, size, x, value).recency == [x] + s.recency[..size - 1] && x !in s.recency
    ensures s.recency[size - 1] !in Added(s, size, x, value).entries
  {
    OldestDropped(s, size, x, value);
    GrownKeeps(s, size, x, value);
    WithoutLast(Grown(s, x, value).recency);
    FrontOfGrown(s.recency, x);
  }

  /** A new key without room: the last one goes, which is `key` when all others were used since. */
  lemma NewDropsLast<V>(s: Store<V>, size: nat, key: string, used: set<string>, x: string, value: V)
    requires Behind(s, size, key, used) && x !in s.entries && |s.recency| == size && |used| + 1 < size
    ensures Behind(Added(s, size, x, value), size, key, used + {x}) && |used + {x}| == |used| + 1
  {
    AddedConsistent(s, size, x, value);
    RecencyWhenFull(s, size, x, value);
    NewInFront(s, Added(s, size, x, value), size, key, used, x, size - 1);
  }

  lemma NewDropsKey<V>(s: Store<V>, size: nat, key: string, used: set<string>, x: string, value: V)
    requires Behind(s, size, key, used) && x !in s.entries && |s.recency| == size == |used| + 1
    ensures key !in Added(s, size, x, value).entries && Consistent(Added(s, size, x, value), size)
  {
    AddedConsistent(s, size, x, value);
    RecencyWhenFull(s, size, x, value);
  }

  lemma UsedArePresent<V>(s: Store<V>, size: nat, key: string, used: set<string>, x: string)
    requires Behind(s, size, key, used) && x !in s.entries
    ensures x !in used
  {
    forall y | y in used
      ensures y in s.entries
    {
      assert y in s.recency[..|used|];
    }
  }

  lemma PresentStep<V>(s: Store<V>, size: nat, key: string, used: set<string>, op: Op<V>)
    requires Behind(s, size, key, used) && op.key != key && op.key in s.entries && size >= 1
    ensures Behind(Do(s, size, op), size, key, used + {op.key})
  {
    var t := Do(s, size, op);
    Moved(s, size, op);
    var i :| 0 <= i < |s.recency| && s.recency[i] == op.key;
    if i < |used| {
      UsedAgain(s, t, size, key, used, i);
    } else {
      UsedFirst(s, t, size, key, used, i);
    }
  }

  lemma Moved<V>(s: Store<V>, size: nat, op: Op<V>)
    requires Consistent(s, size) && op.key in s.entries && size >= 1
    ensures Consistent(Do(s, size, op), size) && op.key in s.recency
    ensures Do(s, size, op).recency == [op.key] + Without(s.recency, op.key)
  {
    match op
    case Get(key) => TouchKeeps(s, size, key);
    case Put(key, value) => AddedConsistent(s, size, key, value);
  }

  lemma NewStep<V>(s: Store<V>, size: nat, key: string, used: set<string>, x: string, value: V)
    requires Behind(s, size, key, used) && x != key && x !in s.entries
    ensures var t := Added(s, size, x, value);
            if |used + {x}| < size then Behind(t, size, key, used + {x})
            else key !in t.entries && Consistent(t, size)
  {
    UsedArePresent(s, size, key, used, x);
    assert |used + {x}| == |used| + 1;
    if |s.recency| < size {
      AddedConsistent(s, size, x, value);
      RecencyWithRoom(s, size, x, value);
      NewInFront(s, Added(s, size, x, value), size, key, used, x, |s.recency|);
    } else if |used| + 1 < size {
      NewDropsLast(s, size, key, used, x, value);
    } else {
      NewDropsKey(s, size, key, used, x, value);
    }
  }

  lemma StepBehind<V>(s: Store<V>, size: nat, key: string, used: set<string>, op: Op<V>)
    requires Behind(s, size, key, used) && op.key != key && |used| < size
    ensures var used' := used + if Uses(s, op) then {op.key} else {};
            if |used'| < size then Behind(Do(s, size, op), size, key, used')
            else key !in Do(s, size, op).entries && Consistent(Do(s, size, op), size)
  {
    if op.key in s.entries {
      PresentStep(s, size, key, used, op);
    } else if op.Put? {
      NewStep(s, size, key, used, op.key, op.value);
    } else {
      assert used + {} == used;
    }
  }

  lemma StepGone<V>(s: Store<V>, size: nat, key: string, op: Op<V>)
    requires Consistent(s, size) && size >= 1 && key !in s.entries && op.key != key
    ensures Consistent(Do(s, size, op), size) && key !in Do(s, size, op).entries
  {
    if op.Put? {
      AddedKeeps(s, size, op.key, op.value);
    } else {
      TouchKeeps(s, size, op.key);
    }
  }

  // ---- Any run ----

  lemma {:induction false} RunBehind<V>(s: Store<V>, size: nat, key: string, ops: seq<Op<V>>)
    requires Consistent(s, size) && size >= 1 && s.recency != [] && s.recency[0] == key && Others(ops, key)
    ensures var t, used := Run(s, size, ops), Used(s, size, ops);
            if |used| < size then Behind(t, size, key, used) else key !in t.entries && Consistent(t, size)
  {
    if ops == [] {
      assert SetOf(s.recency[..0]) == {};
    } else {
      var front, last := ops[..|ops| - 1], ops[|ops| - 1];
      var t, used := Run(s, size, front), Used(s, size, front);
      RunBehind(s, size, key, front);
      if |used| < size {
        StepBehind(t, size, key, used, last);
      } else {
        StepGone(t, size, key, last);
        assert used <= Used(s, size, ops);
        More(used, Used(s, size, ops));
      }
    }
  }

  lemma More(a: set<string>, b: set<string>)
    requires a <= b
    ensures |a| <= |b|
  {
    assert b == a + (b - a);
  }

  /**
   The least recently used key goes first: a key just inserted or read stays, however many inserts and reads of other
   keys follow, exactly as long as fewer than `size` distinct ones are used.
   */
  lemma LruLaw<V>(s: Store<V>, size: nat, key: string, ops: seq<Op<V>>)
    requires Consistent(s, size) && size >= 1 && s.recency != [] && s.recency[0] == key && Others(ops, key)
    ensures key in Run(s, size, ops).entries <==> |Used(s, size, ops)| < size
  {
    RunBehind(s, size, key, ops);
    var t, used := Run(s, size, ops), Used(s, size, ops);
    if |used| < size {
      assert t.recency[|used|] in t.recency;
    }
  }

  /** What was just inserted, or read and found, is the newest, and has its value. */
  lemma JustUsed<V>(s: Store<V>, size: nat, op: Op<V>)
    requires Consistent(s, size) && size >= 1 && Uses(s, op)
    ensures var t := Do(s, size, op);
            && Consistent(t, size) && t.recency != [] && t.recency[0] == op.key
            && op.key in t.entries && t.entries[op.key] == if op.Put? then op.value else s.entries[op.key]
  {
    match op {
      case Get(key) => TouchKeeps(s, size, key);
      case Put(key, value) =>
        AddedKeeps(s, size, key, value);
        if key !in s.entries && |s.recency| == size {
          OldestDropped(s, size, key, value);
          assert Without(Grown(s, key, value).recency, s.recency[size - 1])[0] == key;
        }
    }
  }
}
