/**
 The law for concurrent runs of the cached local solver: exactly when every lookup finds what the configuration says,
 whatever edits and requests come in between.
 */
module ConcurrentLaws {
  import opened Wrappers
  import opened Dns
  import opened LocalVo
  import opened LocalEvents
  import opened LocalSolver
  import opened CacheSolver
  import opened ConcurrentRuns
  import I = CacheInterleaving
  import ProxyChain
  import StorageV2

  // ---- Whatever is stale gets found ----

  lemma OneThenMore(steps: seq<Step>, step: Step, rest: seq<Step>)
    requires Quiet(step) && AllQuiet(rest)
    ensures steps + [step] + rest == steps + ([step] + rest) && AllQuiet([step] + rest)
  {
  }

  /** Looking up a stale entry. */
  lemma StaleLookup(file: Option<StoredFile>, steps: seq<Step>, s: State, id: nat, q: Question, n: nat)
    requires Run(file, steps) == Some(s) && n <= |s.machine.log| && id !in s.machine.requests
    requires HostnameKey(q) in s.machine.cache && AnswerFrom(s.file, q) != Ok(s.machine.cache[HostnameKey(q)].value)
    ensures var look := Cached(I.Look(id, q));
            && AllQuiet([look]) && Run(file, steps + [look]).Some?
            && !LookupsCurrent(Run(file, steps + [look]).value.machine.log, n, s.file)
  {
    var look := Cached(I.Look(id, q));
    RunOne(file, steps, look, s);
    var log := Next(s, look).machine.log;
    var event := I.Looked(HostnameKey(q), s.machine.cache[HostnameKey(q)]);
    assert log == s.machine.log + [event] && log[|s.machine.log|] == event;
    assert !EntryCurrent(s.file, event.key, event.entry.value);
  }

  const BLOCKED := Io((i, j) => 0, false, false)

  /** One candidate is tried with a load that writes nothing. */
  lemma TryBlocked(s: State, id: nat)
    requires CanStep(s, Try(id, BLOCKED)) && s.searches[id].rest != []
    requires RestAnswer(s.file, s.machine.requests[id].question, s.searches[id].rest).Ok?
    ensures var q, rest := s.machine.requests[id].question, s.searches[id].rest;
            var c := Current(s.file).value;
            Next(s, Try(id, BLOCKED)) ==
            s.(searches := s.searches[id := if SolveHostname(c, q, rest[0]).Error? then Search(rest[1..])
                                            else Finished(SolveHostname(c, q, rest[0]))])
  {
    var q, rest := s.machine.requests[id].question, s.searches[id].rest;
    LoadKeepsAnswers(s.file, BLOCKED);
    var l := Load(s.file, BLOCKED).value;
    assert SolveHostname(l.config, q, rest[0]) == SolveHostname(Current(s.file).value, q, rest[0]);
  }

  /** A search that will succeed can be run to its end while nothing else happens. */
  lemma {:induction false} SearchFinishes(file: Option<StoredFile>, steps: seq<Step>, s: State, id: nat)
    returns (more: seq<Step>)
    requires Run(file, steps) == Some(s) && Asks(s, id) && id in s.searches && s.searches[id].Search?
    requires RestAnswer(s.file, s.machine.requests[id].question, s.searches[id].rest).Ok?
    ensures AllQuiet(more)
    ensures var answer := RestAnswer(s.file, s.machine.requests[id].question, s.searches[id].rest);
            Run(file, steps + more) == Some(s.(searches := s.searches[id := Finished(answer)]))
    decreases |s.searches[id].rest|
  {
    var step := Try(id, BLOCKED);
    RunOne(file, steps, step, s);
    TryBlocked(s, id);
    var t := Next(s, step);
    if t.searches[id].Search? {
      var rest := SearchFinishes(file, steps + [step], t, id);
      OneThenMore(steps, step, rest);
      more := [step] + rest;
      assert t.searches[id := Finished(RestAnswer(s.file, s.machine.requests[id].question, s.searches[id].rest))]
          == s.searches[id := Finished(RestAnswer(s.file, s.machine.requests[id].question, s.searches[id].rest))];
    } else {
      more := [step];
    }
  }

  /** A way on, without an edit, to a lookup that finds something stale. */
  ghost predicate Escapes(file: Option<StoredFile>, steps: seq<Step>, more: seq<Step>, n: nat,
                          now: Option<StoredFile>)
  {
    && AllQuiet(more) && Run(file, steps + more).Some?
    && !LookupsCurrent(Run(file, steps + more).value.machine.log, n, now)
  }

  lemma EscapesLonger(file: Option<StoredFile>, steps: seq<Step>, first: seq<Step>, rest: seq<Step>, n: nat,
                      now: Option<StoredFile>)
    requires AllQuiet(first) && Escapes(file, steps + first, rest, n, now)
    ensures Escapes(file, steps, first + rest, n, now)
  {
    assert steps + first + rest == steps + (first + rest);
  }

  lemma StampedEscapes(file: Option<StoredFile>, steps: seq<Step>, s: State, id: nat, n: nat) returns (more: seq<Step>)
    requires Run(file, steps) == Some(s) && n <= |s.machine.log| && id in s.machine.requests
    requires s.machine.requests[id].Stamped? && !RequestSettled(s, id)
    ensures Escapes(file, steps, more, n, s.file)
  {
    var q, put := s.machine.requests[id].question, Cached(I.Put(id));
    RunOne(file, steps, put, s);
    StaleLookup(file, steps + [put], Next(s, put), id, q, n);
    var look := [Cached(I.Look(id, q))];
    assert AllQuiet([put]) && Escapes(file, steps + [put], look, n, s.file);
    EscapesLonger(file, steps, [put], look, n, s.file);
    more := [put] + look;
  }

  lemma HoldingEscapes(file: Option<StoredFile>, steps: seq<Step>, s: State, id: nat, n: nat) returns (more: seq<Step>)
    requires Run(file, steps) == Some(s) && n <= |s.machine.log| && id in s.machine.requests
    requires s.machine.requests[id].Holding? && !RequestSettled(s, id)
    ensures Escapes(file, steps, more, n, s.file)
  {
    var stamp := Cached(I.Stamp(id));
    RunOne(file, steps, stamp, s);
    var rest := StampedEscapes(file, steps + [stamp], Next(s, stamp), id, n);
    EscapesLonger(file, steps, [stamp], rest, n, s.file);
    more := [stamp] + rest;
  }

  lemma FinishedEscapes(file: Option<StoredFile>, steps: seq<Step>, s: State, id: nat, n: nat) returns (more: seq<Step>)
    requires Run(file, steps) == Some(s) && n <= |s.machine.log| && Asks(s, id)
    requires id in s.searches && s.searches[id].Finished? && !RequestSettled(s, id)
    ensures Escapes(file, steps, more, n, s.file)
  {
    var return_ := Return(id);
    RunOne(file, steps, return_, s);
    var rest := HoldingEscapes(file, steps + [return_], Next(s, return_), id, n);
    EscapesLonger(file, steps, [return_], rest, n, s.file);
    more := [return_] + rest;
  }

  lemma StaleEscapes(file: Option<StoredFile>, steps: seq<Step>, s: State, id: nat, n: nat) returns (more: seq<Step>)
    requires Run(file, steps) == Some(s) && n <= |s.machine.log| && id in s.machine.requests && !RequestSettled(s, id)
    ensures Escapes(file, steps, more, n, s.file)
  {
    match s.machine.requests[id] {
      case Stamped(_, _) => more := StampedEscapes(file, steps, s, id, n);
      case Holding(_, _) => more := HoldingEscapes(file, steps, s, id, n);
      case Asking(q) =>
        if s.searches[id].Finished? {
          more := FinishedEscapes(file, steps, s, id, n);
        } else {
          var first := SearchFinishes(file, steps, s, id);
          var t := Run(file, steps + first).value;
          assert t.searches[id] == Finished(RestAnswer(s.file, q, s.searches[id].rest));
          var rest := FinishedEscapes(file, steps + first, t, id, n);
          EscapesLonger(file, steps, first, rest, n, s.file);
          more := first + rest;
        }
    }
  }

  lemma {:induction false} Bound(used: set<nat>) returns (below: nat)
    ensures forall k :: k in used ==> k < below
  {
    if used == {} {
      below := 0;
    } else {
      var k :| k in used;
      var others := Bound(used - {k});
      assert forall l :: l in used ==> l == k || l in used - {k};
      below := if k < others then others else k + 1;
    }
  }

  lemma EntryEscapes(file: Option<StoredFile>, steps: seq<Step>, s: State, key: string) returns (more: seq<Step>)
    requires Run(file, steps) == Some(s)
    requires key in s.machine.cache && !EntryCurrent(s.file, key, s.machine.cache[key].value)
    ensures Escapes(file, steps, more, |s.machine.log|, s.file)
  {
    var q: Question :| HostnameKey(q) == key && AnswerFrom(s.file, q) != Ok(s.machine.cache[key].value);
    var unused := Bound(s.machine.requests.Keys);
    StaleLookup(file, steps, s, unused, q, |s.machine.log|);
    more := [Cached(I.Look(unused, q))];
  }

  lemma UnsettledEscapes(file: Option<StoredFile>, steps: seq<Step>, s: State) returns (more: seq<Step>)
    requires Run(file, steps) == Some(s) && !Settled(s)
    ensures Escapes(file, steps, more, |s.machine.log|, s.file)
  {
    if id :| id in s.machine.requests && !RequestSettled(s, id) {
      more := StaleEscapes(file, steps, s, id, |s.machine.log|);
    } else {
      var key :| key in s.machine.cache && !EntryCurrent(s.file, key, s.machine.cache[key].value);
      more := EntryEscapes(file, steps, s, key);
    }
  }

  /**
   At any moment of any run: in every continuation without an edit or a reset all lookups find what the configuration
   says, if and only if neither the cache nor a request on its way then holds anything else.
   */
  lemma SettledExactly(file: Option<StoredFile>, steps: seq<Step>, s: State)
    requires Run(file, steps) == Some(s)
    ensures Settled(s) <==>
            forall more :: AllQuiet(more) && Run(file, steps + more).Some? ==>
              LookupsCurrent(Run(file, steps + more).value.machine.log, |s.machine.log|, s.file)
  {
    if Settled(s) {
      forall more | AllQuiet(more) && Run(file, steps + more).Some?
        ensures LookupsCurrent(Run(file, steps + more).value.machine.log, |s.machine.log|, s.file)
      {
        QuietRun(file, steps, s, more);
      }
    } else {
      var more := UnsettledEscapes(file, steps, s);
      assert AllQuiet(more) && Run(file, steps + more).Some?;
    }
  }

  // ---- Runs with edits ----

  /** No request is between the begin of its search and its put. */
  predicate Idle(s: State) {
    forall id :: id in s.machine.requests ==>
      id !in s.searches && !s.machine.requests[id].Holding? && !s.machine.requests[id].Stamped?
  }

  /** An edit or reset that falls between requests leaves nothing stale. */
  lemma IdleSaveSettles(s: State, step: Step)
    requires Settled(s) && Idle(s) && !Quiet(step)
    ensures Settled(Next(s, step))
  {
    SavingShape(s, step);
    CacheAfterSave(s, step);
    IdleSettled(s, Next(s, step));
  }

  lemma CacheAfterSave(s: State, step: Step)
    requires !Quiet(step)
    ensures var t := Next(s, step);
            t.machine.cache == map[] || (t.machine.cache == s.machine.cache && t.file == s.file)
  {
    match step {
      case Change(edit, io, writable) =>
        UnsavedEditKeepsFile(s.file, edit, io, writable);
        CacheAfterChange(s, EditFile(s.file, edit, io, writable));
      case Reset(_) =>
    }
  }

  lemma CacheAfterChange(s: State, edited: Edited)
    requires edited.saved || edited.file == s.file
    ensures var t := Changed(s, edited);
            && t.file == edited.file
            && (if edited.saved then t.machine.cache == map[]
                else t.machine.cache == s.machine.cache && t.file == s.file)
  {
  }

  lemma IdleSettled(s: State, t: State)
    requires Settled(s) && Idle(s) && t.machine.requests == s.machine.requests && t.searches == s.searches
    requires t.machine.cache == map[] || (t.machine.cache == s.machine.cache && t.file == s.file)
    ensures Settled(t)
  {
    forall id | id in t.machine.requests
      ensures RequestSettled(t, id)
    {
      assert id !in s.searches && !s.machine.requests[id].Holding? && !s.machine.requests[id].Stamped?;
    }
  }

  /** Every edit and reset of the run leaves nothing stale; so it is when it falls between requests. */
  ghost predicate SettledSaves(file: Option<StoredFile>, steps: seq<Step>)
    requires Run(file, steps).Some?
    decreases |steps|
  {
    steps == [] ||
    var s, step := Run(file, steps[..|steps| - 1]).value, steps[|steps| - 1];
    SettledSaves(file, steps[..|steps| - 1]) && (Quiet(step) || Idle(s) || Settled(Next(s, step)))
  }

  /**
   The concurrent counterpart of the law for sequential runs: from any file, with any number of requests interleaved,
   cache and requests hold current answers only, so every lookup at that moment finds what the file says.
   */
  lemma {:induction false} AlwaysSettled(file: Option<StoredFile>, steps: seq<Step>)
    requires Run(file, steps).Some? && SettledSaves(file, steps)
    ensures Settled(Run(file, steps).value)
    decreases |steps|
  {
    if steps != [] {
      var s, step := Run(file, steps[..|steps| - 1]).value, steps[|steps| - 1];
      AlwaysSettled(file, steps[..|steps| - 1]);
      RunKeepsSearches(file, steps[..|steps| - 1]);
      if Quiet(step) {
        QuietStep(s, step);
      } else if Idle(s) {
        IdleSaveSettles(s, step);
      }
    }
  }

  /**
   An edit that changes an answer while a request is about to return it: the stale answer is put after the flush, and
   a later lookup finds it.
   */
  lemma RacingEditServesStale(file: Option<StoredFile>, q: Question, edit: Edit, io: Io)
    requires AnswerFrom(file, q).Ok? && EditFile(file, edit, io, true).saved
    requires AnswerFrom(EditFile(file, edit, io, true).file, q) != AnswerFrom(file, q)
    ensures exists steps, more ::
              && Run(file, steps).Some? && steps != [] && steps[|steps| - 1] == Change(edit, io, true)
              && Run(file, steps).value.machine.cache == map[]
              && Escapes(file, steps, more, |Run(file, steps).value.machine.log|, Run(file, steps).value.file)
  {
    var before, s := AnswerReached(file, q);
    var change := Change(edit, io, true);
    var t := Next(s, change);
    RunOne(file, before, change, s);
    SavingShape(s, change);
    CacheAfterChange(s, EditFile(file, edit, io, true));
    StillStale(s, t, q);
    var steps := before + [change];
    var more := StaleEscapes(file, steps, t, 0, |t.machine.log|);
    assert steps[|steps| - 1] == change;
  }

  lemma StillStale(s: State, t: State, q: Question)
    requires 0 in s.machine.requests && s.machine.requests[0] == I.Asking(q)
    requires 0 in s.searches && s.searches[0].Finished? && s.searches[0].answer.Ok?
    requires t.machine.requests == s.machine.requests && t.searches == s.searches
    requires AnswerFrom(t.file, q) != s.searches[0].answer
    ensures !RequestSettled(t, 0)
  {
  }

  /** A request that has found the answer and is about to return it. */
  lemma AnswerReached(file: Option<StoredFile>, q: Question) returns (steps: seq<Step>, s: State)
    requires AnswerFrom(file, q).Ok?
    ensures Run(file, steps) == Some(s) && s.file == file && s.machine.cache == map[]
    ensures 0 in s.machine.requests && s.machine.requests[0] == I.Asking(q)
    ensures 0 in s.searches && s.searches[0] == Finished(AnswerFrom(file, q))
  {
    var look, begin := Cached(I.Look(0, q)), Begin(0);
    var s0 := State(I.INITIAL, file, map[]);
    RunOne(file, [], look, s0);
    var s1 := Next(s0, look);
    RunOne(file, [] + [look], begin, s1);
    var s2 := Next(s1, begin);
    WholeSearch(file, q);
    var more := SearchFinishes(file, [] + [look] + [begin], s2, 0);
    steps := [] + [look] + [begin] + more;
    s := s2.(searches := s2.searches[0 := Finished(AnswerFrom(file, q))]);
  }

  lemma WholeSearch(file: Option<StoredFile>, q: Question)
    requires AnswerFrom(file, q).Ok?
    ensures NewSearch(q).Search? && RestAnswer(file, q, NewSearch(q).rest) == AnswerFrom(file, q)
  {
  }

  // ---- Such an edit ----

  lemma WithoutAlias(io: Io)
    ensures var edited := EditFile(Some(V2(ProxyChain.LONE_ALIAS)), RemoveHost("", "a"), io, true);
            && edited.saved
            && Current(edited.file).Ok? && Current(edited.file).value.envs == [Env("", [])]
  {
    var c := LoadVersionedConfiguration(V2(ProxyChain.LONE_ALIAS)).value;
    assert c.envs == [Env("", [Hostname(1, "a", "", "b", 60, "CNAME")])] by {
      assert c.envs[0].hostnames == [Hostname(1, "a", "", "b", 60, "CNAME")];
    }
    var d := Apply(c, RemoveHost("", "a")).value;
    assert d.envs == [Env("", [])];
    StorageV2.RoundTrip(d);
  }

  lemma {:induction false} NothingListed(c: Config, q: Question, candidates: seq<string>)
    requires c.envs == [Env("", [])]
    ensures FirstAnswer(c, q, candidates).Error?
  {
    if candidates != [] {
      NothingListed(c, q, candidates[1..]);
    }
  }

  /** Removing the only entry while a request is about to return it is such an edit. */
  lemma RemovalRaces()
    ensures var file, q := Some(V2(ProxyChain.LONE_ALIAS)), Question("a.", TYPE_A, CLASS_INET);
            var edited := EditFile(file, RemoveHost("", "a"), BLOCKED, true);
            AnswerFrom(file, q).Ok? && edited.saved && AnswerFrom(edited.file, q).Error?
  {
    var q := Question("a.", TYPE_A, CLASS_INET);
    var edited := EditFile(Some(V2(ProxyChain.LONE_ALIAS)), RemoveHost("", "a"), BLOCKED, true);
    ProxyChain.LoneAliasAnswer();
    WithoutAlias(BLOCKED);
    NothingListed(Current(edited.file).value, q, NewSearch(q).rest);
  }
}
