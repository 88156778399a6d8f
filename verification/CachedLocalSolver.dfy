/** The caching solver in front of the local one, as objects: the invariant every call keeps. */
module CachedLocalSolver {
  import opened Wrappers
  import opened Dns
  import opened LocalVo
  import opened LocalEvents
  import opened LocalStore
  import opened TimedCache
  import opened CacheSolver
  import opened Candidates
  import opened CoherentRuns
  import LocalSolver

  /** Loads the file for every candidate until one answers. */
  method SolveFromFile(store: LocalStore, q: Question, ios: nat -> Io) returns (r: Outcome<seq<Record>>)
    requires store.caches.Valid()
    modifies store`file, store.caches.Footprint()
    ensures store.caches.Valid()
    ensures var run := SolveLocal(old(store.file), q, ios);
            && r == run.answer && store.file == run.file
            && (if run.saved then store.AllFlushed() else unchanged(store.caches.Footprint()))
  {
    if q.name == "" {
      return Panic;
    }
    var hosts := GetAllHosts("." + q.name[..|q.name| - 1]);
    ghost var run := SolveLoading(store.file, q, hosts, ios, 0);
    ghost var saved := false;
    for k := 0 to |hosts|
      invariant store.caches.Valid()
      invariant var rest := SolveLoading(store.file, q, hosts[k..], ios, k);
                rest.answer == run.answer && rest.file == run.file && (rest.saved || saved) == run.saved
      invariant if saved then store.AllFlushed() else unchanged(store.caches.Footprint())
    {
      assert hosts[k..][1..] == hosts[k + 1..];
      ghost var loaded := Load(store.file, ios(k));
      var c := store.LoadConfiguration(ios(k));
      saved := saved || (loaded.Ok? && loaded.value.saved);
      match c {
        case Panic => return Panic;
        case Error =>
        case Ok(configuration) =>
          var answer := LocalSolver.SolveHostname(configuration.View(), q, hosts[k]);
          if !answer.Error? {
            return answer;
          }
      }
    }
    r := Error;
  }

  /** A message object with these records. */
  method NewMsg(records: seq<Record>) returns (m: Msg)
    ensures fresh(m) && fresh(set rr | rr in m.answer) && m.Records() == records
  {
    var answer: seq<RR> := [];
    for i := 0 to |records|
      invariant |answer| == i && fresh(set rr | rr in answer)
      invariant forall j :: 0 <= j < i ==> answer[j].Value() == records[j]
    {
      var rr := new RR(records[i]);
      answer := answer + [rr];
    }
    m := new Msg(answer);
    assert m.Records() == records;
  }

  /** A message as its records. */
  function RecordsOf(r: Outcome<Msg>): Outcome<seq<Record>>
    reads set rr | r.Ok? && rr in r.value.answer
  {
    match r
    case Ok(msg) => Ok(msg.Records())
    case Error => Error
    case Panic => Panic
  }

  class CachedLocalSolver {
    const solver: CacheDnsSolver
    const store: LocalStore

    constructor (solver: CacheDnsSolver, store: LocalStore)
      ensures this.solver == solver && this.store == store
    {
      this.solver, this.store := solver, store;
    }

    /** The solver's cache is one of those a save flushes. */
    ghost predicate Registered()
      reads store.caches, store.caches.Footprint()
    {
      store.caches.Valid() && solver.c in store.caches.caches
    }

    /** The cache holds messages with these values. */
    ghost predicate Holds(answers: Answers)
      reads store.caches, store.caches.Footprint(), solver.c.cache, Shared(solver.c.cache.entries)
    {
      Registered() && Mirrors(solver.c.cache.entries, answers)
    }

    method LookUp(q: Question, checked: int, now: int, ghost answers: Answers) returns (r: Outcome<Msg>)
      requires Holds(answers)
      modifies solver.c.cache
      ensures Holds(AfterRead(answers, HostnameKey(q), checked))
      ensures match ValidAt(answers, HostnameKey(q), checked)
              case None => r.Error?
              case Some(hit) => RecordsOf(r) == Ok(ServedAnswer(hit, now))
    {
      var hit := solver.LookUpByValue(HostnameKey(q), checked, now, answers);
      assert forall c :: c in store.caches.caches && c.cache != solver.c.cache ==> unchanged(c.cache);
      r := if hit.Some? then Ok(hit.value) else Error;
    }

    /** The caches are flushed, the messages in them are not written to. */
    lemma NoRecordsInFootprint()
      ensures forall rr: RR :: rr !in store.caches.Footprint()
    {
    }

    /** A save on the way empties this cache, otherwise it stays as it is. */
    method LoadAndSolve(q: Question, ios: nat -> Io) returns (r: Outcome<seq<Record>>, ghost saved: bool)
      requires Registered()
      modifies store`file, store.caches.Footprint()
      ensures Registered() && solver.c.cache.entries == if saved then map[] else old(solver.c.cache.entries)
      ensures SolveLocal(old(store.file), q, ios) == LocalRun(r, store.file, saved)
    {
      ghost var entries := solver.c.cache.entries;
      saved := SolveLocal(store.file, q, ios).saved;
      r := SolveFromFile(store, q, ios);
      if saved {
        assert solver.c.cache.entries == map[];
      } else {
        assert solver.c.cache.entries == entries;
      }
    }

    method Delegate(q: Question, ios: nat -> Io, ghost answers: Answers)
      returns (r: Outcome<seq<Record>>, ghost left: Answers)
      requires Holds(answers)
      modifies store`file, store.caches.Footprint()
      ensures Holds(left)
      ensures var local := SolveLocal(old(store.file), q, ios);
              r == local.answer && store.file == local.file && left == if local.saved then map[] else answers
    {
      ghost var entries := solver.c.cache.entries;
      ghost var saved;
      NoRecordsInFootprint();
      r, saved := LoadAndSolve(q, ios);
      if saved {
        left := map[];
      } else {
        left := answers;
        forall k | k in entries
          ensures AnswerOf(entries[k]) == answers[k]
        {
          assert AnswerOf(entries[k]) == old(AnswerOf(entries[k]));
        }
      }
    }

    method Keep(q: Question, msg: Msg, now: int, ghost answers: Answers) returns (ghost left: Answers)
      requires Holds(answers)
      modifies solver.c.cache
      ensures Holds(left) && PutInto(answers, left, HostnameKey(q), StoredAnswer(old(msg.Records()), now))
    {
      left := solver.StoreByValue(q, msg, now, answers);
    }

    /** An answer becomes a message, stored and returned; the put may drop another entry. */
    method Store(q: Question, answer: Outcome<seq<Record>>, now: int, ghost answers: Answers)
      returns (r: Outcome<Msg>, ghost left: Answers)
      requires Holds(answers)
      modifies solver.c.cache
      ensures Holds(left) && RecordsOf(r) == answer && Within(left, AfterMiss(answer, answers, HostnameKey(q), now))
    {
      left := answers;
      match answer {
        case Error => r := Error;
        case Panic => r := Panic;
        case Ok(records) =>
          var msg := NewMsg(records);
          left := Keep(q, msg, now, answers);
          PutWithin(answers, left, HostnameKey(q), StoredAnswer(records, now));
          r := Ok(msg);
      }
    }

    method SolveMiss(q: Question, ios: nat -> Io, now: int, ghost w: World, ghost answers: Answers)
      returns (r: Outcome<Msg>, ghost left: Answers)
      requires Holds(answers) && w.file == store.file && w.clock <= now
      requires ValidAt(w.cache, HostnameKey(q), w.clock).None? && answers == AfterRead(w.cache, HostnameKey(q), w.clock)
      modifies store`file, store.caches.Footprint()
      ensures Holds(left) && AsAsked(w, q, ios, now, RecordsOf(r), store.file, left)
    {
      ghost var local := SolveLocal(store.file, q, ios);
      var answer;
      answer, left := Delegate(q, ios, answers);
      r, left := Store(q, answer, now, left);
      MissAsAsked(w, q, ios, now, local, left);
    }

    /**
     One call does what one query of a run does: the same answer, the same file; the cache may hold less, because
     the put may have dropped an entry. `now` is the second clock read, on a hit for serving, on a miss for storing.
     */
    method Query(q: Question, ios: nat -> Io, checked: int, now: int, ghost answers: Answers)
      returns (r: Outcome<Msg>, ghost left: Answers)
      requires Holds(answers) && checked <= now
      modifies store`file, store.caches.Footprint()
      ensures Holds(left)
      ensures AsAsked(World(old(store.file), answers, checked), q, ios, now, RecordsOf(r), store.file, left)
    {
      ghost var w := World(store.file, answers, checked);
      r := LookUp(q, checked, now, answers);
      left := AfterRead(answers, HostnameKey(q), checked);
      if r.Ok? {
        HitAsAsked(w, q, ios, now);
      } else {
        r, left := SolveMiss(q, ios, now, w, left);
      }
    }

    /**
     While cache and configuration agree, every answer agrees with the configuration at the time of the call, TTLs
     aside, and they still agree afterwards, whatever the call saved on the way.
     */
    method Solve(q: Question, ios: nat -> Io, checked: int, now: int, ghost answers: Answers)
      returns (r: Outcome<Msg>, ghost left: Answers)
      requires Holds(answers) && checked <= now && Coherent(World(store.file, answers, checked))
      modifies store`file, store.caches.Footprint()
      ensures Holds(left) && Coherent(World(store.file, left, now))
      ensures Agree(RecordsOf(r), AnswerFrom(old(store.file), q))
      ensures forall p :: AnswerFrom(store.file, p) == AnswerFrom(old(store.file), p)
    {
      ghost var w := World(store.file, answers, checked);
      r, left := Query(q, ios, checked, now, answers);
      AsAskedAgrees(w, q, ios, now, RecordsOf(r), store.file, left);
    }

    /** A flush empties the cache; without one nothing in it changes. */
    method Edit(edit: Edit, io: Io, writable: bool, ghost answers: Answers)
      returns (r: Outcome<()>, ghost left: Answers)
      requires Holds(answers)
      modifies store`file, store.caches.Footprint()
      ensures Holds(left) && r == EditFile(old(store.file), edit, io, writable).outcome
      ensures World(store.file, left, 0) == Step(World(old(store.file), answers, 0), Change(edit, io, writable))
    {
      ghost var entries, saved := solver.c.cache.entries, EditFile(store.file, edit, io, writable).saved;
      NoRecordsInFootprint();
      r := store.EditConfiguration(edit, io, writable);
      if saved {
        left := map[];
      } else {
        left := answers;
        forall k | k in entries
          ensures AnswerOf(entries[k]) == answers[k]
        {
          assert AnswerOf(entries[k]) == old(AnswerOf(entries[k]));
        }
      }
    }

    method Reset(removed: bool, ghost answers: Answers) returns (ghost left: Answers)
      requires Holds(answers)
      modifies store`file, store.caches.Footprint()
      ensures Holds(left)
      ensures World(store.file, left, 0) == Step(World(old(store.file), answers, 0), Event.Reset(removed))
    {
      store.ResetConf(removed);
      left := map[];
    }
  }
}
