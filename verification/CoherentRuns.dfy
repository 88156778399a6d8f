/**
 Runs of the cached local solver: queries, clock, evictions, edits and resets, one after the other. A save
 and its flush are one step; a save that cannot open the file does neither.
 */
module CoherentRuns {
  import opened Wrappers
  import opened Dns
  import opened LocalVo
  import opened LocalEvents
  import opened TimedCache
  import opened CacheSolver
  import Candidates
  import LocalSolver
  import Ttl

  datatype World = World(file: Option<StoredFile>, cache: Answers, clock: int)

  datatype Event =
    | Query(question: Question, ios: nat -> Io, wait: nat)   // `wait`: until the second clock read
    | Advance(duration: nat)
    | Evict(key: string)
    | Change(edit: Edit, io: Io, writable: bool)
    | Reset(removed: bool)

  /** An answer is put, nothing else is. */
  function AfterMiss(answer: Outcome<seq<Record>>, cache: Answers, key: string, now: int): Answers {
    if answer.Ok? then cache[key := StoredAnswer(answer.value, now)] else cache
  }

  /** Lookup; on a miss the local solver, whose own saves flush this cache too, and then the put. */
  function Ask(w: World, q: Question, ios: nat -> Io, wait: nat): (World, Outcome<seq<Record>>) {
    var key, now := HostnameKey(q), w.clock + wait;
    match ValidAt(w.cache, key, w.clock)
    case Some(hit) => (w.(clock := now), Ok(ServedAnswer(hit, now)))
    case None =>
      var local := SolveLocal(w.file, q, ios);
      var cache := if local.saved then map[] else AfterRead(w.cache, key, w.clock);
      (World(local.file, AfterMiss(local.answer, cache, key, now), now), local.answer)
  }

  /** The cache of `a` holds no more than that of `b`. */
  ghost predicate Within(a: Answers, b: Answers) {
    forall k :: k in a ==> k in b && a[k] == b[k]
  }

  /** This answer, this file and, up to dropped entries, this cache are what the query gives, ending at `now`. */
  ghost predicate AsAsked(w: World, q: Question, ios: nat -> Io, now: int,
                          answer: Outcome<seq<Record>>, file: Option<StoredFile>, cache: Answers)
    requires w.clock <= now
  {
    var (after, asked) := Ask(w, q, ios, now - w.clock);
    answer == asked && file == after.file && Within(cache, after.cache)
  }

  lemma HitAsAsked(w: World, q: Question, ios: nat -> Io, now: int)
    requires ValidAt(w.cache, HostnameKey(q), w.clock).Some? && w.clock <= now
    ensures AsAsked(w, q, ios, now, Ok(ServedAnswer(w.cache[HostnameKey(q)], now)), w.file,
                    AfterRead(w.cache, HostnameKey(q), w.clock))
  {
  }

  lemma MissAsAsked(w: World, q: Question, ios: nat -> Io, now: int, local: LocalRun, left: Answers)
    requires ValidAt(w.cache, HostnameKey(q), w.clock).None? && w.clock <= now
    requires local == SolveLocal(w.file, q, ios)
    requires var cache := if local.saved then map[] else AfterRead(w.cache, HostnameKey(q), w.clock);
             Within(left, AfterMiss(local.answer, cache, HostnameKey(q), now))
    ensures AsAsked(w, q, ios, now, local.answer, local.file, left)
  {
  }

  lemma PutWithin(before: Answers, after: Answers, key: string, e: TimedValue<seq<Record>>)
    requires PutInto(before, after, key, e)
    ensures Within(after, before[key := e])
  {
  }

  function Step(w: World, e: Event): World {
    match e
    case Query(q, ios, wait) => Ask(w, q, ios, wait).0
    case Advance(d) => w.(clock := w.clock + d)
    case Evict(key) => w.(cache := w.cache - {key})
    case Change(edit, io, writable) =>
      var edited := EditFile(w.file, edit, io, writable);
      w.(file := edited.file, cache := if edited.saved then map[] else w.cache)
    case Reset(removed) => w.(file := if removed then None else w.file, cache := map[])
  }

  function Run(w: World, events: seq<Event>): World
    decreases |events|
  {
    if |events| == 0 then w else Run(Step(w, events[0]), events[1..])
  }

  /** Each stored answer is what the current configuration gives, for every question with that key. */
  ghost predicate Coherent(w: World) {
    forall q: Question :: HostnameKey(q) in w.cache ==> AnswerFrom(w.file, q) == Ok(w.cache[HostnameKey(q)].value)
  }

  /** The same outcome, and the same records up to TTLs. */
  predicate Agree(a: Outcome<seq<Record>>, b: Outcome<seq<Record>>) {
    match (a, b)
    case (Ok(x), Ok(y)) => SameRecords(x, y)
    case _ => a == b
  }

  lemma AnswerByKey(file: Option<StoredFile>, p: Question, q: Question)
    requires HostnameKey(p) == HostnameKey(q)
    ensures AnswerFrom(file, p) == AnswerFrom(file, q)
  {
    KeyInjective(p, q);
    if p.name != "" && Current(file).Ok? {
      LocalSolver.OnlyNameMatters(Current(file).value, p, q, Candidates.AllHosts("." + p.name[..|p.name| - 1]));
    }
  }

  lemma AskAgrees(w: World, q: Question, ios: nat -> Io, wait: nat)
    requires Coherent(w)
    ensures Agree(Ask(w, q, ios, wait).1, AnswerFrom(w.file, q))
    ensures Coherent(Ask(w, q, ios, wait).0)
    ensures forall p :: AnswerFrom(Ask(w, q, ios, wait).0.file, p) == AnswerFrom(w.file, p)
  {
    var key := HostnameKey(q);
    if ValidAt(w.cache, key, w.clock).None? {
      SolveLocalAnswers(w.file, q, ios);
      var after := Ask(w, q, ios, wait).0;
      forall p: Question | HostnameKey(p) in after.cache
        ensures AnswerFrom(after.file, p) == Ok(after.cache[HostnameKey(p)].value)
      {
        if HostnameKey(p) == key && SolveLocal(w.file, q, ios).answer.Ok? {
          AnswerByKey(w.file, p, q);
        }
      }
    }
  }

  /** Fewer answers, the same file. */
  lemma FewerAnswers(w: World, v: World)
    requires Coherent(w) && v.file == w.file
    requires forall k :: k in v.cache ==> k in w.cache && v.cache[k] == w.cache[k]
    ensures Coherent(v)
  {
  }

  lemma StepKeepsCoherent(w: World, e: Event)
    requires Coherent(w)
    ensures Coherent(Step(w, e))
  {
    match e {
      case Query(q, ios, wait) => AskAgrees(w, q, ios, wait);
      case Advance(_) => FewerAnswers(w, Step(w, e));
      case Evict(_) => FewerAnswers(w, Step(w, e));
      case Change(edit, io, writable) =>
        UnsavedEditKeepsFile(w.file, edit, io, writable);
        if !EditFile(w.file, edit, io, writable).saved {
          FewerAnswers(w, Step(w, e));
        }
      case Reset(_) => assert Step(w, e).cache == map[];
    }
  }

  /** The guarantees of a query hold of anything that does what a query does. */
  lemma AsAskedAgrees(w: World, q: Question, ios: nat -> Io, now: int,
                      answer: Outcome<seq<Record>>, file: Option<StoredFile>, cache: Answers)
    requires Coherent(w) && w.clock <= now && AsAsked(w, q, ios, now, answer, file, cache)
    ensures Agree(answer, AnswerFrom(w.file, q)) && Coherent(World(file, cache, now))
    ensures forall p :: AnswerFrom(file, p) == AnswerFrom(w.file, p)
  {
    AskAgrees(w, q, ios, now - w.clock);
    FewerAnswers(Ask(w, q, ios, now - w.clock).0, World(file, cache, now));
  }

  lemma {:induction false} RunKeepsCoherent(w: World, events: seq<Event>)
    requires Coherent(w)
    ensures Coherent(Run(w, events))
    decreases |events|
  {
    if |events| != 0 {
      StepKeepsCoherent(w, events[0]);
      RunKeepsCoherent(Step(w, events[0]), events[1..]);
    }
  }

  /**
   From any file and an empty cache, after any run, any question is answered by the cached solver as the
   uncached one would on the configuration of that moment, TTLs aside.
   */
  lemma AlwaysCurrent(file: Option<StoredFile>, events: seq<Event>, q: Question, ios: nat -> Io, wait: nat)
    ensures var w := Run(World(file, map[], 0), events);
            Agree(Ask(w, q, ios, wait).1, AnswerFrom(w.file, q))
  {
    RunKeepsCoherent(World(file, map[], 0), events);
    AskAgrees(Run(World(file, map[], 0), events), q, ios, wait);
  }

  /** A hit serves the current answer, every record with what is left of the first one's TTL. */
  lemma HitIsCurrent(w: World, q: Question, ios: nat -> Io, wait: nat)
    requires Coherent(w) && ValidAt(w.cache, HostnameKey(q), w.clock).Some?
    ensures var current := AnswerFrom(w.file, q);
            && current.Ok?
            && var age, served := w.clock + wait - w.cache[HostnameKey(q)].creation, Ask(w, q, ios, wait).1;
               && served.Ok? && |served.value| == |current.value|
               && forall i :: 0 <= i < |current.value| ==>
                    served.value[i] == current.value[i].(ttl := Ttl.ServedTtl(current.value[0].ttl, age))
  {
    assert AnswerFrom(w.file, q) == Ok(w.cache[HostnameKey(q)].value);
    ServedRecords(w.cache[HostnameKey(q)], w.clock + wait);
  }

  // ---- How long a hit lasts ----

  /** Every entry was stamped by a put in the past. */
  ghost predicate Dated(w: World) {
    forall k :: k in w.cache ==>
      w.cache[k] == StoredAnswer(w.cache[k].value, w.cache[k].creation) && w.cache[k].creation <= w.clock
  }

  lemma StepKeepsDated(w: World, e: Event)
    requires Dated(w)
    ensures Dated(Step(w, e))
  {
    if e.Query? && ValidAt(w.cache, HostnameKey(e.question), w.clock).None? {
      AskKeepsDated(w, e.question, e.ios, e.wait);
    }
  }

  lemma AskKeepsDated(w: World, q: Question, ios: nat -> Io, wait: nat)
    requires Dated(w) && ValidAt(w.cache, HostnameKey(q), w.clock).None?
    ensures Dated(Ask(w, q, ios, wait).0)
  {
    MissKeepsDated(w, q, SolveLocal(w.file, q, ios), wait);
  }

  lemma MissKeepsDated(w: World, q: Question, local: LocalRun, wait: nat)
    requires Dated(w)
    ensures var key, now := HostnameKey(q), w.clock + wait;
            var cache := if local.saved then map[] else AfterRead(w.cache, key, w.clock);
            Dated(World(local.file, AfterMiss(local.answer, cache, key, now), now))
  {
  }

  lemma {:induction false} RunKeepsDated(w: World, events: seq<Event>)
    requires Dated(w)
    ensures Dated(Run(w, events))
    decreases |events|
  {
    if |events| != 0 {
      StepKeepsDated(w, events[0]);
      RunKeepsDated(Step(w, events[0]), events[1..]);
    }
  }

  /** Is there an answer younger than its first record's TTL, or than five seconds when it has no record? */
  predicate Young(w: World, key: string) {
    key in w.cache &&
    w.clock - w.cache[key].creation < (if w.cache[key].value == [] then 5 else w.cache[key].value[0].ttl) * Ttl.SECOND
  }

  lemma YoungIsValid(w: World, key: string)
    requires Dated(w)
    ensures ValidAt(w.cache, key, w.clock).Some? <==> Young(w, key)
  {
    if key in w.cache {
      StoredLife(w.cache[key].value, w.cache[key].creation, w.clock);
    }
  }

  lemma YoungServed(w: World, q: Question, ios: nat -> Io, wait: nat)
    requires Coherent(w) && Dated(w) && Young(w, HostnameKey(q)) && wait < Ttl.SECOND
    ensures var current, served := AnswerFrom(w.file, q), Ask(w, q, ios, wait).1;
            var age := w.clock + wait - w.cache[HostnameKey(q)].creation;
            && age >= 0 && current.Ok? && served.Ok? && |served.value| == |current.value|
            && forall i :: 0 <= i < |current.value| ==>
                 served.value[i] == current.value[i].(ttl := Ttl.Remaining(current.value[0].ttl, age))
  {
    var e := w.cache[HostnameKey(q)];
    YoungIsValid(w, HostnameKey(q));
    assert AnswerFrom(w.file, q) == Ok(e.value);
    assert Ask(w, q, ios, wait).1 == Ok(ServedAnswer(e, w.clock + wait));
    ServedInTime(e.value, e.creation, w.clock, w.clock + wait);
  }

  lemma OldAsked(w: World, q: Question, ios: nat -> Io, wait: nat)
    requires Dated(w) && !Young(w, HostnameKey(q))
    ensures Ask(w, q, ios, wait).1 == AnswerFrom(w.file, q)
  {
    YoungIsValid(w, HostnameKey(q));
    SolveLocalAnswers(w.file, q, ios);
  }

  /**
   A cached answer is served exactly while it is young, and then every record has the first one's TTL minus the age;
   any other answer is the local one to the last TTL.
   */
  ghost predicate Honest(w: World, q: Question, ios: nat -> Io, wait: nat) {
    var current, served := AnswerFrom(w.file, q), Ask(w, q, ios, wait).1;
    if Young(w, HostnameKey(q)) then
      var age := w.clock + wait - w.cache[HostnameKey(q)].creation;
      && age >= 0 && current.Ok? && served.Ok? && |served.value| == |current.value|
      && forall i :: 0 <= i < |current.value| ==>
           served.value[i] == current.value[i].(ttl := Ttl.Remaining(current.value[0].ttl, age))
    else served == current
  }

  lemma DatedIsHonest(w: World, q: Question, ios: nat -> Io, wait: nat)
    requires Coherent(w) && Dated(w) && wait < Ttl.SECOND
    ensures Honest(w, q, ios, wait)
  {
    if Young(w, HostnameKey(q)) {
      YoungServed(w, q, ios, wait);
    } else {
      OldAsked(w, q, ios, wait);
    }
  }

  /** After any run, whatever the question, served within a second of the check. */
  lemma HitLasts(file: Option<StoredFile>, events: seq<Event>, q: Question, ios: nat -> Io, wait: nat)
    requires wait < Ttl.SECOND
    ensures Honest(Run(World(file, map[], 0), events), q, ios, wait)
  {
    RunKeepsCoherent(World(file, map[], 0), events);
    RunKeepsDated(World(file, map[], 0), events);
    DatedIsHonest(Run(World(file, map[], 0), events), q, ios, wait);
  }
}
