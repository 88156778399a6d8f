/** What a flush achieves while requests are in flight: when nothing obtained before it is used after it. */
module CacheFlush {
  import opened Wrappers
  import opened Dns
  import opened CacheSolver
  import opened CacheInterleaving
  import Ttl

  /** The two uses of a stored answer: a lookup finds it, or it is served. */
  datatype Use = Lookup | Serving

  predicate IsUse(event: Event, use: Use) {
    match use
    case Lookup => event.Looked?
    case Serving => event.Served?
  }

  function UsedKey(event: Event): string
    requires event.Looked? || event.Served?
  {
    if event.Looked? then event.key else HostnameKey(event.question)
  }

  predicate IsAnswer(event: Event, key: string, records: seq<Record>) {
    event.Returned? && HostnameKey(event.question) == key && event.records == records
  }

  /** From position `n` of the log on, the delegate returned these records for this key. */
  ghost predicate ReturnedSince(log: seq<Event>, n: nat, key: string, records: seq<Record>) {
    exists j :: n <= j < |log| && IsAnswer(log[j], key, records)
  }

  /** From position `n` on, whatever is used was returned between `n` and its use. */
  ghost predicate OnlyFresh(log: seq<Event>, n: nat, use: Use) {
    forall i :: n <= i < |log| && IsUse(log[i], use) ==>
      ReturnedSince(log[..i], n, UsedKey(log[i]), log[i].entry.value)
  }

  /** Requests whose answer can still come to the use, however the cache is flushed. */
  predicate Pending(r: Request, now: int, use: Use) {
    match (r, use)
    case (Holding(_, _), Lookup) => true
    case (Stamped(_, _), Lookup) => true
    case (Holding(_, records), Serving) => records == [] || records[0].ttl > 0
    case (Stamped(_, e), Serving) => e.IsValid(now)
    case (Fetched(_, e), Serving) => e.IsValid(now)
    case (Hit(_, _, _), Serving) => true
    case _ => false
  }

  ghost predicate NonePending(s: Machine, use: Use) {
    forall id :: id in s.requests ==> !Pending(s.requests[id], s.clock, use)
  }

  // ---- With nothing pending, a flush reaches everything ----

  function Carried(r: Request): seq<Record>
    requires r.Holding? || r.Stamped? || r.Fetched? || r.Hit?
  {
    if r.Holding? then r.records else r.entry.value
  }

  ghost predicate FreshEntry(s: Machine, n: nat, use: Use, key: string)
    requires key in s.cache
  {
    use.Lookup? || s.cache[key].IsValid(s.clock) ==> ReturnedSince(s.log, n, key, s.cache[key].value)
  }

  ghost predicate FreshRequest(s: Machine, n: nat, use: Use, r: Request) {
    Pending(r, s.clock, use) ==> ReturnedSince(s.log, n, HostnameKey(r.question), Carried(r))
  }

  /** What the steps after a flush keep. */
  ghost predicate Fresh(s: Machine, n: nat, use: Use) {
    && n <= |s.log| && OnlyFresh(s.log, n, use)
    && (forall k :: k in s.cache ==> FreshEntry(s, n, use, k))
    && (forall id :: id in s.requests ==> FreshRequest(s, n, use, s.requests[id]))
  }

  lemma ReturnedStays(log: seq<Event>, more: seq<Event>, n: nat, key: string, records: seq<Record>)
    requires ReturnedSince(log, n, key, records)
    ensures ReturnedSince(log + more, n, key, records)
  {
    var j :| n <= j < |log| && IsAnswer(log[j], key, records);
    assert (log + more)[j] == log[j];
  }

  lemma FreshLogGrows(log: seq<Event>, event: Event, n: nat, use: Use)
    requires n <= |log| && OnlyFresh(log, n, use)
    requires IsUse(event, use) ==> ReturnedSince(log, n, UsedKey(event), event.entry.value)
    ensures OnlyFresh(log + [event], n, use)
  {
    var grown := log + [event];
    assert grown[..|log|] == log;
    forall i | 0 <= i < |log|
      ensures grown[i] == log[i] && grown[..i] == log[..i]
    {
    }
  }

  lemma FreshStepLog(s: Machine, a: Action, n: nat, use: Use)
    requires Fresh(s, n, use) && Enabled(s, a)
    ensures Next(s, a).log == s.log + NewEvents(s, a) && OnlyFresh(Next(s, a).log, n, use)
  {
    match a {
      case Look(id, q) =>
        if HostnameKey(q) in s.cache {
          assert FreshEntry(s, n, use, HostnameKey(q));
          FreshLogGrows(s.log, Looked(HostnameKey(q), s.cache[HostnameKey(q)]), n, use);
        }
      case Delegate(id, reply) =>
        if reply.Some? {
          FreshLogGrows(s.log, Returned(s.requests[id].question, reply.value, s.clock), n, use);
        }
      case Put(id) => FreshLogGrows(s.log, Stored(HostnameKey(s.requests[id].question), s.requests[id].entry), n, use);
      case Serve(id) =>
        var r := s.requests[id];
        assert FreshRequest(s, n, use, r);
        FreshLogGrows(s.log, Served(r.question, r.entry, r.checked, s.clock, ServedAnswer(r.entry, s.clock)), n, use);
      case Flush => FreshLogGrows(s.log, Flushed, n, use);
      case _ =>
    }
  }

  lemma FreshStepRequest(s: Machine, a: Action, n: nat, use: Use, id: nat)
    requires Fresh(s, n, use) && Enabled(s, a) && id in Next(s, a).requests
    ensures FreshRequest(Next(s, a), n, use, Next(s, a).requests[id])
  {
    var t := Next(s, a);
    var r := t.requests[id];
    FreshStepLog(s, a, n, use);
    if Pending(r, t.clock, use) {
      if a.Delegate? && a.id == id {
        assert IsAnswer(t.log[|s.log|], HostnameKey(r.question), Carried(r));
      } else {
        if a.Look? && a.id == id {
          assert FreshEntry(s, n, use, HostnameKey(r.question));
        } else {
          assert FreshRequest(s, n, use, s.requests[id]);
        }
        ReturnedStays(s.log, NewEvents(s, a), n, HostnameKey(r.question), Carried(r));
      }
    }
  }

  lemma FreshStepEntry(s: Machine, a: Action, n: nat, use: Use, key: string)
    requires Fresh(s, n, use) && Enabled(s, a) && key in Next(s, a).cache
    ensures FreshEntry(Next(s, a), n, use, key)
  {
    var t := Next(s, a);
    FreshStepLog(s, a, n, use);
    if use.Lookup? || t.cache[key].IsValid(t.clock) {
      if a.Put? && key == HostnameKey(s.requests[a.id].question) {
        assert FreshRequest(s, n, use, s.requests[a.id]);
      } else {
        assert FreshEntry(s, n, use, key);
      }
      ReturnedStays(s.log, NewEvents(s, a), n, key, t.cache[key].value);
    }
  }

  lemma FreshStep(s: Machine, a: Action, n: nat, use: Use)
    requires Fresh(s, n, use) && Enabled(s, a)
    ensures Fresh(Next(s, a), n, use)
  {
    FreshStepLog(s, a, n, use);
    forall id | id in Next(s, a).requests
      ensures FreshRequest(Next(s, a), n, use, Next(s, a).requests[id])
    {
      FreshStepRequest(s, a, n, use, id);
    }
    forall k | k in Next(s, a).cache
      ensures FreshEntry(Next(s, a), n, use, k)
    {
      FreshStepEntry(s, a, n, use, k);
    }
  }

  lemma {:induction false} FreshAfterFlush(actions: seq<Action>, s: Machine, use: Use, more: seq<Action>)
    requires Run(actions) == Some(s) && NonePending(s, use) && Run(actions + [Flush] + more).Some?
    ensures Fresh(Run(actions + [Flush] + more).value, |s.log| + 1, use)
  {
    var all := actions + [Flush] + more;
    if more == [] {
      assert all == actions + [Flush];
      RunOne(actions, Flush, s);
    } else {
      var front, last := more[..|more| - 1], more[|more| - 1];
      assert all[..|all| - 1] == actions + [Flush] + front && all[|all| - 1] == last;
      FreshAfterFlush(actions, s, use, front);
      FreshStep(Run(actions + [Flush] + front).value, last, |s.log| + 1, use);
    }
  }

  // ---- A pending answer escapes the flush ----

  predicate NoneReturned(log: seq<Event>, n: nat) {
    forall j :: n <= j < |log| ==> !log[j].Returned?
  }

  function StepsLeft(r: Request): nat {
    match r
    case Holding(_, _) => 3
    case Stamped(_, _) => 2
    case Fetched(_, _) => 1
    case _ => 0
  }

  /** The use that breaks freshness. */
  lemma StaleUse(log: seq<Event>, event: Event, n: nat, use: Use)
    requires n <= |log| && NoneReturned(log, n) && IsUse(event, use)
    ensures !OnlyFresh(log + [event], n, use)
  {
    var grown := log + [event];
    assert grown[|log|] == event && grown[..|log|] == log;
    assert !ReturnedSince(grown[..|log|], n, UsedKey(event), event.entry.value);
  }

  lemma OneThenMore(actions: seq<Action>, a: Action, rest: seq<Action>)
    ensures actions + [a] + rest == actions + ([a] + rest)
  {
  }

  /** The request goes on alone: stamp, put, look again, check, serve. */
  lemma {:induction false} PendingEscapes(actions: seq<Action>, s: Machine, id: nat, n: nat, use: Use)
    returns (more: seq<Action>)
    requires Run(actions) == Some(s) && n <= |s.log| && NoneReturned(s.log, n)
    requires id in s.requests && Pending(s.requests[id], s.clock, use)
    ensures Run(actions + more).Some? && !OnlyFresh(Run(actions + more).value.log, n, use)
    decreases StepsLeft(s.requests[id])
  {
    match s.requests[id] {
      case Hit(q, e, checked) =>
        RunOne(actions, Serve(id), s);
        StaleUse(s.log, Served(q, e, checked, s.clock, ServedAnswer(e, s.clock)), n, use);
        more := [Serve(id)];
      case Fetched(q, e) =>
        RunOne(actions, Check(id), s);
        var rest := PendingEscapes(actions + [Check(id)], Next(s, Check(id)), id, n, use);
        OneThenMore(actions, Check(id), rest);
        more := [Check(id)] + rest;
      case Holding(q, records) =>
        Ttl.SecondsDoNotOverflow(GetTtl(records));
        RunOne(actions, Stamp(id), s);
        var rest := PendingEscapes(actions + [Stamp(id)], Next(s, Stamp(id)), id, n, use);
        OneThenMore(actions, Stamp(id), rest);
        more := [Stamp(id)] + rest;
      case Stamped(q, e) => more := StampedEscapes(actions, s, id, n, use);
    }
  }

  lemma {:induction false} StampedEscapes(actions: seq<Action>, s: Machine, id: nat, n: nat, use: Use)
    returns (more: seq<Action>)
    requires Run(actions) == Some(s) && n <= |s.log| && NoneReturned(s.log, n)
    requires id in s.requests && s.requests[id].Stamped? && Pending(s.requests[id], s.clock, use)
    ensures Run(actions + more).Some? && !OnlyFresh(Run(actions + more).value.log, n, use)
    decreases StepsLeft(s.requests[id]), 0
  {
    var q, e := s.requests[id].question, s.requests[id].entry;
    var t := Next(s, Put(id));
    var u := Next(t, Look(id, q));
    RunOne(actions, Put(id), s);
    RunOne(actions + [Put(id)], Look(id, q), t);
    OneThenMore(actions, Put(id), [Look(id, q)]);
    match use {
      case Lookup =>
        StaleUse(t.log, Looked(HostnameKey(q), e), n, use);
        more := [Put(id)] + [Look(id, q)];
      case Serving =>
        var rest := PendingEscapes(actions + [Put(id)] + [Look(id, q)], u, id, n, use);
        OneThenMore(actions + [Put(id)], Look(id, q), rest);
        OneThenMore(actions, Put(id), [Look(id, q)] + rest);
        more := [Put(id)] + ([Look(id, q)] + rest);
    }
  }

  /**
   Whatever runs before and after it, a flush keeps every earlier answer from being used exactly when no request
   is then pending. For lookups: none holds an answer it has yet to put. For serving: none holds or has fetched
   an answer that has not expired.
   */
  lemma FlushReaches(actions: seq<Action>, s: Machine, use: Use)
    requires Run(actions) == Some(s)
    ensures NonePending(s, use) <==>
            forall more :: Run(actions + [Flush] + more).Some? ==>
              OnlyFresh(Run(actions + [Flush] + more).value.log, |s.log| + 1, use)
  {
    if NonePending(s, use) {
      forall more | Run(actions + [Flush] + more).Some?
        ensures OnlyFresh(Run(actions + [Flush] + more).value.log, |s.log| + 1, use)
      {
        FreshAfterFlush(actions, s, use, more);
      }
    } else {
      var id :| id in s.requests && Pending(s.requests[id], s.clock, use);
      RunOne(actions, Flush, s);
      var more := PendingEscapes(actions + [Flush], Next(s, Flush), id, |s.log| + 1, use);
      assert Run(actions + [Flush] + more).Some?;
    }
  }

  /** Both uses at once: no answer is held, checked, or fetched and still valid. */
  lemma FlushReachesBoth(actions: seq<Action>, s: Machine)
    requires Run(actions) == Some(s)
    ensures (forall id :: id in s.requests ==>
               var r := s.requests[id];
               !r.Holding? && !r.Stamped? && !r.Hit? && !(r.Fetched? && r.entry.IsValid(s.clock))) <==>
            forall more :: Run(actions + [Flush] + more).Some? ==>
              var log := Run(actions + [Flush] + more).value.log;
              OnlyFresh(log, |s.log| + 1, Lookup) && OnlyFresh(log, |s.log| + 1, Serving)
  {
    FlushReaches(actions, s, Lookup);
    FlushReaches(actions, s, Serving);
  }

  // ---- Two runs in which it does not ----

  lemma HoldingReachable(q: Question, records: seq<Record>)
    ensures Run([Look(0, q), Delegate(0, Some(records))]) ==
            Some(Machine(map[], map[0 := Holding(q, records)], 0, [Returned(q, records, 0)]))
  {
    RunOne([], Look(0, q), INITIAL);
    assert [] + [Look(0, q)] == [Look(0, q)];
    RunOne([Look(0, q)], Delegate(0, Some(records)), Machine(map[], map[0 := Asking(q)], 0, []));
    assert map[0 := Asking(q)][0 := Holding(q, records)] == map[0 := Holding(q, records)];
    assert [Look(0, q)] + [Delegate(0, Some(records))] == [Look(0, q), Delegate(0, Some(records))];
    assert [] + [Returned(q, records, 0)] == [Returned(q, records, 0)];
  }

  lemma AnswerHeldOverFlush(q: Question, records: seq<Record>)
    ensures Run([Look(0, q), Delegate(0, Some(records))] + [Flush] + [Stamp(0)]) ==
            Some(Machine(map[], map[0 := Stamped(q, StoredAnswer(records, 0))], 0, [Returned(q, records, 0), Flushed]))
  {
    var held, log := [Look(0, q), Delegate(0, Some(records))], [Returned(q, records, 0)];
    HoldingReachable(q, records);
    RunOne(held, Flush, Machine(map[], map[0 := Holding(q, records)], 0, log));
    RunOne(held + [Flush], Stamp(0), Machine(map[], map[0 := Holding(q, records)], 0, log + [Flushed]));
    assert log + [Flushed] == [Returned(q, records, 0), Flushed];
    assert map[0 := Holding(q, records)][0 := Stamped(q, StoredAnswer(records, 0))] ==
           map[0 := Stamped(q, StoredAnswer(records, 0))];
  }

  lemma StoredAnswerServed(actions: seq<Action>, log: seq<Event>, q: Question, r: Question, e: Entry)
    requires Run(actions) == Some(Machine(map[], map[0 := Stamped(q, e)], 0, log))
    requires HostnameKey(r) == HostnameKey(q) && e.IsValid(0)
    ensures var key := HostnameKey(q);
            Run(actions + [Put(0)] + [Look(1, r)] + [Check(1)] + [Serve(1)]) ==
            Some(Machine(map[key := e], map[], 0,
                         log + [Stored(key, e)] + [Looked(key, e)] + [Served(r, e, 0, 0, ServedAnswer(e, 0))]))
  {
    var key := HostnameKey(q);
    var l := log + [Stored(key, e)] + [Looked(key, e)];
    assert map[0 := Stamped(q, e)] - {0} == map[] && map[1 := Hit(r, e, 0)] - {1} == map[];
    assert map[1 := Fetched(r, e)][1 := Hit(r, e, 0)] == map[1 := Hit(r, e, 0)];
    RunOne(actions, Put(0), Machine(map[], map[0 := Stamped(q, e)], 0, log));
    RunOne(actions + [Put(0)], Look(1, r), Machine(map[key := e], map[], 0, log + [Stored(key, e)]));
    RunOne(actions + [Put(0)] + [Look(1, r)], Check(1), Machine(map[key := e], map[1 := Fetched(r, e)], 0, l));
    RunOne(actions + [Put(0)] + [Look(1, r)] + [Check(1)], Serve(1),
           Machine(map[key := e], map[1 := Hit(r, e, 0)], 0, l));
  }

  /**
   A flush does not reach a request that already holds an answer: the answer is put afterwards and later
   lookups serve it, though the delegate returned it before the flush.
   */
  lemma FlushMissesHeldAnswers(q: Question, r: Question, records: seq<Record>) returns (actions: seq<Action>)
    requires (records == [] || records[0].ttl > 0) && r.name == q.name && r.qtype == q.qtype
    ensures Run(actions).Some?
    ensures var log := Run(actions).value.log;
            |log| == 5 && log[0] == Returned(q, records, 0) && log[1] == Flushed &&
            log[4].Served? && log[4].question == r && log[4].entry.value == records
  {
    KeyInjective(q, r);
    Ttl.SecondsDoNotOverflow(GetTtl(records));
    AnswerHeldOverFlush(q, records);
    var held := [Look(0, q), Delegate(0, Some(records))] + [Flush] + [Stamp(0)];
    StoredAnswerServed(held, [Returned(q, records, 0), Flushed], q, r, StoredAnswer(records, 0));
    actions := held + [Put(0)] + [Look(1, r)] + [Check(1)] + [Serve(1)];
  }

  lemma FetchedReachable(q: Question, records: seq<Record>)
    ensures var key, e := HostnameKey(q), StoredAnswer(records, 0);
            Run([Look(0, q), Delegate(0, Some(records))] + [Stamp(0)] + [Put(0)] + [Look(1, q)]) ==
            Some(Machine(map[key := e], map[1 := Fetched(q, e)], 0,
                         [Returned(q, records, 0)] + [Stored(key, e)] + [Looked(key, e)]))
  {
    var key, e, log := HostnameKey(q), StoredAnswer(records, 0), [Returned(q, records, 0)];
    var held := [Look(0, q), Delegate(0, Some(records))];
    HoldingReachable(q, records);
    assert map[0 := Holding(q, records)][0 := Stamped(q, e)] == map[0 := Stamped(q, e)];
    assert map[0 := Stamped(q, e)] - {0} == map[];
    RunOne(held, Stamp(0), Machine(map[], map[0 := Holding(q, records)], 0, log));
    RunOne(held + [Stamp(0)], Put(0), Machine(map[], map[0 := Stamped(q, e)], 0, log));
    RunOne(held + [Stamp(0)] + [Put(0)], Look(1, q), Machine(map[key := e], map[], 0, log + [Stored(key, e)]));
  }

  lemma FetchedServed(actions: seq<Action>, cache: Answers, log: seq<Event>, q: Question, e: Entry)
    requires Run(actions) == Some(Machine(cache, map[1 := Fetched(q, e)], 0, log)) && e.IsValid(0)
    ensures Run(actions + [Flush] + [Check(1)] + [Serve(1)]) ==
            Some(Machine(map[], map[], 0, log + [Flushed] + [Served(q, e, 0, 0, ServedAnswer(e, 0))]))
  {
    assert map[1 := Fetched(q, e)][1 := Hit(q, e, 0)] == map[1 := Hit(q, e, 0)];
    assert map[1 := Hit(q, e, 0)] - {1} == map[];
    RunOne(actions, Flush, Machine(cache, map[1 := Fetched(q, e)], 0, log));
    RunOne(actions + [Flush], Check(1), Machine(map[], map[1 := Fetched(q, e)], 0, log + [Flushed]));
    RunOne(actions + [Flush] + [Check(1)], Serve(1), Machine(map[], map[1 := Hit(q, e, 0)], 0, log + [Flushed]));
  }

  /** Nor does it reach an answer that a request has fetched from the cache but not served. */
  lemma FlushMissesFetchedAnswers(q: Question, records: seq<Record>) returns (actions: seq<Action>)
    requires records == [] || records[0].ttl > 0
    ensures Run(actions).Some?
    ensures var log := Run(actions).value.log;
            |log| == 5 && log[0] == Returned(q, records, 0) && log[3] == Flushed &&
            log[4].Served? && log[4].question == q && log[4].entry.value == records
  {
    var key, e := HostnameKey(q), StoredAnswer(records, 0);
    var fetched := [Look(0, q), Delegate(0, Some(records))] + [Stamp(0)] + [Put(0)] + [Look(1, q)];
    var log := [Returned(q, records, 0)] + [Stored(key, e)] + [Looked(key, e)];
    FetchedReachable(q, records);
    Ttl.SecondsDoNotOverflow(GetTtl(records));
    FetchedServed(fetched, map[key := e], log, q, e);
    actions := fetched + [Flush] + [Check(1)] + [Serve(1)];
  }
}
