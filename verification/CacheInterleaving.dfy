/**
 Any number of requests running through the caching solver at once. A request is a sequence of atomic
 cache calls and clock reads; between any two of them other requests, flushes, evictions and the clock
 may move. The log records what happened, in order.
 */
module CacheInterleaving {
  import opened Wrappers
  import opened Dns
  import opened TimedCache
  import opened CacheSolver
  import Ttl

  type Entry = TimedValue<seq<Record>>

  /** Where a request is. */
  datatype Request =
    | Fetched(question: Question, entry: Entry)              // read from the cache, validity not yet checked
    | Hit(question: Question, entry: Entry, checked: int)    // valid at `checked`, not yet served
    | Expired(question: Question)                            // about to remove the key
    | Asking(question: Question)                             // about to ask the delegate
    | Holding(question: Question, records: seq<Record>)      // delegate answered
    | Stamped(question: Question, entry: Entry)              // creation time taken, not yet put

  datatype Event =
    | Returned(question: Question, records: seq<Record>, at: int)
    | Stored(key: string, entry: Entry)
    | Looked(key: string, entry: Entry)
    | Served(question: Question, entry: Entry, checked: int, served: int, answer: seq<Record>)
    | Flushed

  datatype Machine = Machine(cache: Answers, requests: map<nat, Request>, clock: int, log: seq<Event>)

  // A put that drops another entry is a `Put` followed by an `Evict`.
  datatype Action =
    | Look(id: nat, question: Question)
    | Check(id: nat)
    | Drop(id: nat)
    | Delegate(id: nat, reply: Option<seq<Record>>)
    | Stamp(id: nat)
    | Put(id: nat)
    | Serve(id: nat)
    | Evict(key: string)
    | Flush
    | Tick(duration: nat)

  const INITIAL := Machine(map[], map[], 0, [])

  predicate Enabled(s: Machine, a: Action) {
    match a
    case Look(id, _) => id !in s.requests
    case Check(id) => id in s.requests && s.requests[id].Fetched?
    case Drop(id) => id in s.requests && s.requests[id].Expired?
    case Delegate(id, _) => id in s.requests && s.requests[id].Asking?
    case Stamp(id) => id in s.requests && s.requests[id].Holding?
    case Put(id) => id in s.requests && s.requests[id].Stamped?
    case Serve(id) => id in s.requests && s.requests[id].Hit?
    case _ => true
  }

  function Next(s: Machine, a: Action): Machine
    requires Enabled(s, a)
  {
    match a
    case Look(id, q) =>
      var key := HostnameKey(q);
      if key in s.cache
      then s.(requests := s.requests[id := Fetched(q, s.cache[key])], log := s.log + [Looked(key, s.cache[key])])
      else s.(requests := s.requests[id := Asking(q)])
    case Check(id) =>
      var r := s.requests[id];
      s.(requests := s.requests[id := if r.entry.IsValid(s.clock) then Hit(r.question, r.entry, s.clock)
                                      else Expired(r.question)])
    case Drop(id) =>
      var q := s.requests[id].question;
      s.(cache := s.cache - {HostnameKey(q)}, requests := s.requests[id := Asking(q)])
    case Delegate(id, reply) =>
      var q := s.requests[id].question;
      (match reply
       case None => s.(requests := s.requests - {id})
       case Some(records) =>
         s.(requests := s.requests[id := Holding(q, records)], log := s.log + [Returned(q, records, s.clock)]))
    case Stamp(id) =>
      var r := s.requests[id];
      s.(requests := s.requests[id := Stamped(r.question, StoredAnswer(r.records, s.clock))])
    case Put(id) =>
      var r := s.requests[id];
      var key := HostnameKey(r.question);
      s.(cache := s.cache[key := r.entry], requests := s.requests - {id}, log := s.log + [Stored(key, r.entry)])
    case Serve(id) =>
      var r := s.requests[id];
      s.(requests := s.requests - {id},
         log := s.log + [Served(r.question, r.entry, r.checked, s.clock, ServedAnswer(r.entry, s.clock))])
    case Evict(key) => s.(cache := s.cache - {key})
    case Flush => s.(cache := map[], log := s.log + [Flushed])
    case Tick(d) => s.(clock := s.clock + d)
  }

  /** The state after a word of actions, if each was possible. */
  function Run(actions: seq<Action>): Option<Machine> {
    if actions == [] then Some(INITIAL)
    else
      match Run(actions[..|actions| - 1])
      case None => None
      case Some(s) =>
        var a := actions[|actions| - 1];
        if Enabled(s, a) then Some(Next(s, a)) else None
  }

  // ---- What the log guarantees ----

  /**
   The delegate returned exactly these records, without error, for this name and type, before they were stamped with
   their creation time and the first one's TTL, or five seconds if there is none.
   */
  ghost predicate Provenance(log: seq<Event>, question: Question, entry: Entry) {
    && entry.timeout == (if entry.value == [] then 5 else entry.value[0].ttl) * Ttl.SECOND
    && exists j :: 0 <= j < |log| && IsSource(log[j], question, entry)
  }

  predicate IsSource(event: Event, question: Question, entry: Entry) {
    && event.Returned?
    && event.question.name == question.name && event.question.qtype == question.qtype
    && event.records == entry.value
    && event.at <= entry.creation
  }

  /** Put into the cache, and no flush since. */
  ghost predicate StoredSinceFlush(log: seq<Event>, key: string, entry: Entry) {
    exists p :: 0 <= p < |log| && log[p] == Stored(key, entry) && forall f :: p < f < |log| ==> log[f] != Flushed
  }

  /** A served hit has a source, and was strictly younger than its TTL at the validity check. */
  ghost predicate GoodHit(log: seq<Event>, hit: Event)
    requires hit.Served?
  {
    && Provenance(log, hit.question, hit.entry)
    && hit.entry.creation <= hit.checked <= hit.served
    && hit.checked - hit.entry.creation < (if hit.entry.value == [] then 5 else hit.entry.value[0].ttl) * Ttl.SECOND
    && hit.answer == ServedAnswer(hit.entry, hit.served)
  }

  ghost predicate GoodLog(log: seq<Event>) {
    && (forall i :: 0 <= i < |log| && log[i].Served? ==> GoodHit(log[..i], log[i]))
    && (forall i :: 0 <= i < |log| && log[i].Looked? ==> StoredSinceFlush(log[..i], log[i].key, log[i].entry))
  }

  ghost predicate GoodEntry(s: Machine, key: string)
    requires key in s.cache
  {
    && (forall q: Question :: HostnameKey(q) == key ==> Provenance(s.log, q, s.cache[key]))
    && s.cache[key].creation <= s.clock
    && StoredSinceFlush(s.log, key, s.cache[key])
  }

  ghost predicate GoodRequest(s: Machine, r: Request) {
    match r
    case Fetched(q, e) => Provenance(s.log, q, e) && e.creation <= s.clock
    case Hit(q, e, checked) => Provenance(s.log, q, e) && e.creation <= checked <= s.clock && e.IsValid(checked)
    case Holding(q, records) =>
      exists j :: 0 <= j < |s.log| && IsSource(s.log[j], q, StoredAnswer(records, s.clock))
    case Stamped(q, e) => Provenance(s.log, q, e) && e.creation <= s.clock
    case _ => true
  }

  ghost predicate Inv(s: Machine) {
    && GoodLog(s.log)
    && (forall k :: k in s.cache ==> GoodEntry(s, k))
    && (forall id :: id in s.requests ==> GoodRequest(s, s.requests[id]))
  }

  lemma ProvenanceStays(log: seq<Event>, more: seq<Event>, q: Question, e: Entry)
    requires Provenance(log, q, e)
    ensures Provenance(log + more, q, e)
  {
    var j :| 0 <= j < |log| && IsSource(log[j], q, e);
    assert (log + more)[j] == log[j];
  }

  lemma StoredStays(log: seq<Event>, event: Event, key: string, e: Entry)
    requires StoredSinceFlush(log, key, e) && event != Flushed
    ensures StoredSinceFlush(log + [event], key, e)
  {
    var p :| 0 <= p < |log| && log[p] == Stored(key, e) && forall f :: p < f < |log| ==> log[f] != Flushed;
    assert (log + [event])[p] == log[p];
  }

  lemma LogGrows(log: seq<Event>, event: Event)
    requires GoodLog(log)
    requires event.Served? ==> GoodHit(log, event)
    requires event.Looked? ==> StoredSinceFlush(log, event.key, event.entry)
    ensures GoodLog(log + [event])
  {
    var grown := log + [event];
    assert grown[..|log|] == log;
    forall i | 0 <= i < |log|
      ensures grown[i] == log[i] && grown[..i] == log[..i]
    {
    }
  }

  /** A request's facts survive more log and a later clock. */
  lemma RequestStays(s: Machine, t: Machine, more: seq<Event>, r: Request)
    requires GoodRequest(s, r) && t.log == s.log + more && s.clock <= t.clock
    ensures GoodRequest(t, r)
  {
    match r {
      case Fetched(q, e) => ProvenanceStays(s.log, more, q, e);
      case Hit(q, e, checked) => ProvenanceStays(s.log, more, q, e);
      case Holding(q, records) =>
        var j :| 0 <= j < |s.log| && IsSource(s.log[j], q, StoredAnswer(records, s.clock));
        assert t.log[j] == s.log[j];
        assert IsSource(t.log[j], q, StoredAnswer(records, t.clock));
      case Stamped(q, e) => ProvenanceStays(s.log, more, q, e);
      case _ =>
    }
  }

  lemma EntryStays(s: Machine, t: Machine, more: seq<Event>, key: string)
    requires key in s.cache && GoodEntry(s, key) && t.log == s.log + more && s.clock <= t.clock
    requires key in t.cache && t.cache[key] == s.cache[key]
    requires more == [] || (|more| == 1 && more[0] != Flushed)
    ensures GoodEntry(t, key)
  {
    var e := s.cache[key];
    forall q: Question | HostnameKey(q) == key
      ensures Provenance(t.log, q, e)
    {
      ProvenanceStays(s.log, more, q, e);
    }
    if more == [] {
      assert t.log == s.log;
    } else {
      assert more == [more[0]];
      StoredStays(s.log, more[0], key, e);
    }
  }

  function NewEvents(s: Machine, a: Action): seq<Event>
    requires Enabled(s, a)
  {
    Next(s, a).log[|s.log|..]
  }

  /** The log part of one step. */
  lemma StepLog(s: Machine, a: Action)
    requires Inv(s) && Enabled(s, a)
    ensures var t := Next(s, a);
            t.log == s.log + NewEvents(s, a) && |NewEvents(s, a)| <= 1 && GoodLog(t.log) && s.clock <= t.clock
    ensures a != Flush && NewEvents(s, a) != [] ==> NewEvents(s, a)[0] != Flushed
  {
    var t := Next(s, a);
    match a {
      case Look(id, q) =>
        if HostnameKey(q) in s.cache {
          LogGrows(s.log, Looked(HostnameKey(q), s.cache[HostnameKey(q)]));
        }
      case Delegate(id, reply) =>
        if reply.Some? {
          LogGrows(s.log, Returned(s.requests[id].question, reply.value, s.clock));
        }
      case Put(id) => LogGrows(s.log, Stored(HostnameKey(s.requests[id].question), s.requests[id].entry));
      case Serve(id) =>
        var r := s.requests[id];
        LogGrows(s.log, Served(r.question, r.entry, r.checked, s.clock, ServedAnswer(r.entry, s.clock)));
      case Flush => LogGrows(s.log, Flushed);
      case _ =>
    }
  }

  /** The request a step works on. */
  lemma StepRequest(s: Machine, a: Action, id: nat)
    requires Inv(s) && Enabled(s, a) && id in Next(s, a).requests
    ensures GoodRequest(Next(s, a), Next(s, a).requests[id])
  {
    var t := Next(s, a);
    StepLog(s, a);
    if id in s.requests && t.requests[id] == s.requests[id] {
      RequestStays(s, t, NewEvents(s, a), s.requests[id]);
    } else {
      match a {
        case Look(_, q) =>
          if HostnameKey(q) in s.cache {
            assert GoodEntry(s, HostnameKey(q));
            ProvenanceStays(s.log, NewEvents(s, a), q, s.cache[HostnameKey(q)]);
          }
        case Check(_) => assert GoodRequest(s, s.requests[id]);
        case Delegate(_, reply) =>
          assert t.log[|s.log|] == Returned(s.requests[id].question, reply.value, s.clock);
        case Stamp(_) => assert GoodRequest(s, s.requests[id]);
        case _ =>
      }
    }
  }

  lemma StepEntry(s: Machine, a: Action, key: string)
    requires Inv(s) && Enabled(s, a) && key in Next(s, a).cache
    ensures GoodEntry(Next(s, a), key)
  {
    var t := Next(s, a);
    StepLog(s, a);
    if a.Put? && key == HostnameKey(s.requests[a.id].question) {
      var r := s.requests[a.id];
      assert GoodRequest(s, r);
      forall q: Question | HostnameKey(q) == key
        ensures Provenance(t.log, q, r.entry)
      {
        KeyInjective(q, r.question);
        assert Provenance(s.log, q, r.entry);
        ProvenanceStays(s.log, NewEvents(s, a), q, r.entry);
      }
      assert t.log[|s.log|] == Stored(key, r.entry);
    } else {
      assert key in s.cache && GoodEntry(s, key);
      EntryStays(s, t, NewEvents(s, a), key);
    }
  }

  lemma {:induction false} RunKeepsInv(actions: seq<Action>)
    ensures Run(actions).Some? ==> Inv(Run(actions).value)
  {
    if actions != [] && Run(actions).Some? {
      var s, a := Run(actions[..|actions| - 1]).value, actions[|actions| - 1];
      RunKeepsInv(actions[..|actions| - 1]);
      StepLog(s, a);
      forall id | id in Next(s, a).requests
        ensures GoodRequest(Next(s, a), Next(s, a).requests[id])
      {
        StepRequest(s, a, id);
      }
      forall k | k in Next(s, a).cache
        ensures GoodEntry(Next(s, a), k)
      {
        StepEntry(s, a, k);
      }
    }
  }

  /** In every run every hit has a source and was valid; a lookup finds only what was put after the last flush. */
  lemma EveryHitHasASource(actions: seq<Action>)
    requires Run(actions).Some?
    ensures GoodLog(Run(actions).value.log)
  {
    RunKeepsInv(actions);
  }

  /** When serving follows the check within a second, the TTL served is the honest remainder. */
  lemma HitTtl(actions: seq<Action>, i: nat)
    requires Run(actions).Some? && i < |Run(actions).value.log|
    requires var hit := Run(actions).value.log[i]; hit.Served? && hit.served < hit.checked + Ttl.SECOND
    ensures var hit := Run(actions).value.log[i];
            && hit.entry.creation <= hit.served && |hit.answer| == |hit.entry.value|
            && forall k :: 0 <= k < |hit.answer| ==>
                 hit.answer[k] ==
                 hit.entry.value[k].(ttl := Ttl.Remaining(hit.entry.value[0].ttl, hit.served - hit.entry.creation))
  {
    EveryHitHasASource(actions);
    var hit := Run(actions).value.log[i];
    Ttl.SecondsDoNotOverflow(GetTtl(hit.entry.value));
    assert hit.entry == StoredAnswer(hit.entry.value, hit.entry.creation);
    ServedInTime(hit.entry.value, hit.entry.creation, hit.checked, hit.served);
  }

  lemma RunOne(actions: seq<Action>, a: Action, s: Machine)
    requires Run(actions) == Some(s) && Enabled(s, a)
    ensures Run(actions + [a]) == Some(Next(s, a))
  {
    assert (actions + [a])[..|actions|] == actions;
  }
}
