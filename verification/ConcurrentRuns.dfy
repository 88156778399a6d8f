/**
 The cached local solver under concurrent requests and saves. The delegate is no longer one step: a request begins a
 search, loads the configuration file once per candidate, and returns; edits may fall between any two of these.
 A load with the save it may make, and a save with its flush, are each one step.
 */
module ConcurrentRuns {
  import opened Wrappers
  import opened Dns
  import opened LocalVo
  import opened LocalEvents
  import opened LocalSolver
  import opened CacheSolver
  import I = CacheInterleaving
  import Candidates
  import CoherentRuns

  /** A local search: candidates still to be tried, or the answer about to be returned. */
  datatype Search = Search(rest: seq<string>) | Finished(answer: Outcome<seq<Record>>)

  datatype State = State(machine: I.Machine, file: Option<StoredFile>, searches: map<nat, Search>)

  datatype Step =
    | Cached(action: I.Action)
    | Begin(id: nat)
    | Try(id: nat, io: Io)
    | Return(id: nat)
    | Change(edit: Edit, io: Io, writable: bool)
    | Reset(removed: bool)

  predicate Asks(s: State, id: nat) {
    id in s.machine.requests && s.machine.requests[id].Asking?
  }

  /** Steps other than edits and resets. */
  predicate Quiet(step: Step) {
    !step.Change? && !step.Reset?
  }

  predicate CanStep(s: State, step: Step) {
    match step
    case Cached(a) => !a.Delegate? && !a.Flush? && I.Enabled(s.machine, a)
    case Begin(id) => Asks(s, id) && id !in s.searches
    case Try(id, _) => Asks(s, id) && id in s.searches && s.searches[id].Search?
    case Return(id) => Asks(s, id) && id in s.searches && s.searches[id].Finished?
    case _ => true
  }

  function NewSearch(q: Question): Search {
    if q.name == "" then Finished(Panic) else Search(Candidates.AllHosts("." + q.name[..|q.name| - 1]))
  }

  function FlushIf(m: I.Machine, saved: bool): I.Machine {
    if saved then I.Next(m, I.Flush) else m
  }

  /** One candidate against the file of this moment. */
  function TryNext(s: State, id: nat, io: Io): State
    requires Asks(s, id) && id in s.searches && s.searches[id].Search?
  {
    var q, rest := s.machine.requests[id].question, s.searches[id].rest;
    if rest == [] then s.(searches := s.searches[id := Finished(Error)])
    else
      match Load(s.file, io)
      case Panic => s.(searches := s.searches[id := Finished(Panic)])
      case Error => s.(searches := s.searches[id := Search(rest[1..])])
      case Ok(l) =>
        var answer := SolveHostname(l.config, q, rest[0]);
        State(FlushIf(s.machine, l.saved), l.file,
              s.searches[id := if answer.Error? then Search(rest[1..]) else Finished(answer)])
  }

  function Changed(s: State, edited: Edited): State {
    s.(machine := FlushIf(s.machine, edited.saved), file := edited.file)
  }

  function Reply(answer: Outcome<seq<Record>>): Option<seq<Record>> {
    match answer case Ok(records) => Some(records) case _ => None
  }

  function Next(s: State, step: Step): State
    requires CanStep(s, step)
  {
    match step
    case Cached(a) => s.(machine := I.Next(s.machine, a))
    case Begin(id) => s.(searches := s.searches[id := NewSearch(s.machine.requests[id].question)])
    case Try(id, io) => TryNext(s, id, io)
    case Return(id) =>
      s.(machine := I.Next(s.machine, I.Delegate(id, Reply(s.searches[id].answer))), searches := s.searches - {id})
    case Change(edit, io, writable) =>
      Changed(s, EditFile(s.file, edit, io, writable))
    case Reset(removed) => s.(machine := I.Next(s.machine, I.Flush), file := if removed then None else s.file)
  }

  function Run(file: Option<StoredFile>, steps: seq<Step>): Option<State> {
    if steps == [] then Some(State(I.INITIAL, file, map[]))
    else
      match Run(file, steps[..|steps| - 1])
      case None => None
      case Some(s) =>
        var step := steps[|steps| - 1];
        if CanStep(s, step) then Some(Next(s, step)) else None
  }

  lemma RunOne(file: Option<StoredFile>, steps: seq<Step>, step: Step, s: State)
    requires Run(file, steps) == Some(s) && CanStep(s, step)
    ensures Run(file, steps + [step]) == Some(Next(s, step))
  {
    assert (steps + [step])[..|steps|] == steps;
  }

  // ---- What holds of all requests holds of these ----

  lemma StepProjects(actions: seq<I.Action>, s: State, step: Step) returns (more: seq<I.Action>)
    requires I.Run(actions) == Some(s.machine) && CanStep(s, step)
    ensures I.Run(more) == Some(Next(s, step).machine)
  {
    var m := Next(s, step).machine;
    if m == s.machine {
      more := actions;
    } else {
      var a := match step
               case Cached(a) => a
               case Return(id) => I.Delegate(id, Reply(s.searches[id].answer))
               case _ => I.Flush;
      I.RunOne(actions, a, s.machine);
      more := actions + [a];
    }
  }

  /** Every run here is a run of the caching solver alone: what is proved of all its interleavings applies. */
  lemma {:induction false} Projects(file: Option<StoredFile>, steps: seq<Step>) returns (actions: seq<I.Action>)
    requires Run(file, steps).Some?
    ensures I.Run(actions) == Some(Run(file, steps).value.machine)
  {
    if steps == [] {
      actions := [];
    } else {
      var last := |steps| - 1;
      var before := Projects(file, steps[..last]);
      actions := StepProjects(before, Run(file, steps[..last]).value, steps[last]);
    }
  }

  /** Only asking requests search. */
  ghost predicate OnlyAskersSearch(s: State) {
    forall id :: id in s.searches ==> Asks(s, id)
  }

  lemma CachedKeepsSearches(s: State, a: I.Action)
    requires OnlyAskersSearch(s) && CanStep(s, Cached(a))
    ensures OnlyAskersSearch(Next(s, Cached(a)))
  {
    var m := I.Next(s.machine, a);
    forall id | id in s.searches
      ensures id in m.requests && m.requests[id].Asking?
    {
      assert Asks(s, id);
    }
  }

  lemma FlushKeepsRequests(m: I.Machine)
    ensures I.Next(m, I.Flush).requests == m.requests
  {
  }

  lemma TryShape(s: State, id: nat, io: Io)
    requires CanStep(s, Try(id, io))
    ensures var t := Next(s, Try(id, io));
            && (t.machine == s.machine || t.machine == I.Next(s.machine, I.Flush))
            && id in t.searches && t.searches == s.searches[id := t.searches[id]]
  {
  }

  lemma ReturnKeepsSearches(s: State, id: nat)
    requires OnlyAskersSearch(s) && CanStep(s, Return(id))
    ensures OnlyAskersSearch(Next(s, Return(id)))
  {
    var t := Next(s, Return(id));
    forall k | k in t.searches
      ensures Asks(t, k)
    {
      assert k != id && Asks(s, k);
    }
  }

  /** Same requests, and at most one asker more that searches. */
  lemma SearchesKept(s: State, t: State, id: nat)
    requires OnlyAskersSearch(s) && t.machine.requests == s.machine.requests
    requires forall k :: k in t.searches ==> k in s.searches || (k == id && Asks(s, id))
    ensures OnlyAskersSearch(t)
  {
    forall k | k in t.searches
      ensures Asks(t, k)
    {
      assert k in s.searches ==> Asks(s, k);
    }
  }

  lemma ChangedShape(s: State, edited: Edited)
    ensures var t := Changed(s, edited);
            && (t.machine == s.machine || t.machine == I.Next(s.machine, I.Flush))
            && t.machine.requests == s.machine.requests && t.searches == s.searches
  {
  }

  lemma SavingShape(s: State, step: Step)
    requires !Quiet(step)
    ensures var t := Next(s, step);
            && (t.machine == s.machine || t.machine == I.Next(s.machine, I.Flush))
            && t.machine.requests == s.machine.requests && t.searches == s.searches
  {
    match step {
      case Change(edit, io, writable) => ChangedShape(s, EditFile(s.file, edit, io, writable));
      case Reset(_) =>
    }
  }

  lemma BeginKeepsSearches(s: State, id: nat)
    requires OnlyAskersSearch(s) && CanStep(s, Begin(id))
    ensures OnlyAskersSearch(Next(s, Begin(id)))
  {
    SearchesKept(s, Next(s, Begin(id)), id);
  }

  lemma TryKeepsSearches(s: State, id: nat, io: Io)
    requires OnlyAskersSearch(s) && CanStep(s, Try(id, io))
    ensures OnlyAskersSearch(TryNext(s, id, io))
  {
    TryShape(s, id, io);
    FlushKeepsRequests(s.machine);
    SearchesKept(s, TryNext(s, id, io), id);
  }

  lemma StepKeepsSearches(s: State, step: Step)
    requires OnlyAskersSearch(s) && CanStep(s, step)
    ensures OnlyAskersSearch(Next(s, step))
  {
    match step {
      case Cached(a) => CachedKeepsSearches(s, a);
      case Begin(id) => BeginKeepsSearches(s, id);
      case Try(id, io) => TryKeepsSearches(s, id, io);
      case Return(id) => ReturnKeepsSearches(s, id);
      case _ =>
        SavingShape(s, step);
        SearchesKept(s, Next(s, step), 0);
    }
  }

  lemma {:induction false} RunKeepsSearches(file: Option<StoredFile>, steps: seq<Step>)
    requires Run(file, steps).Some?
    ensures OnlyAskersSearch(Run(file, steps).value)
  {
    if steps != [] {
      RunKeepsSearches(file, steps[..|steps| - 1]);
      StepKeepsSearches(Run(file, steps[..|steps| - 1]).value, steps[|steps| - 1]);
    }
  }

  // ---- Nothing stale is left ----

  /** What the rest of a search comes to, as the file stands. */
  function RestAnswer(file: Option<StoredFile>, q: Question, rest: seq<string>): Outcome<seq<Record>> {
    match Current(file)
    case Ok(c) => FirstAnswer(c, q, rest)
    case _ => Error
  }

  predicate AnswerSettled(file: Option<StoredFile>, q: Question, answer: Outcome<seq<Record>>) {
    answer.Ok? ==> answer == AnswerFrom(file, q)
  }

  predicate SearchSettled(file: Option<StoredFile>, q: Question, search: Search) {
    match search
    case Search(rest) => AnswerSettled(file, q, RestAnswer(file, q, rest))
    case Finished(answer) => AnswerSettled(file, q, answer)
  }

  /** The request will put nothing but what the file says now. */
  predicate RequestSettled(s: State, id: nat)
    requires id in s.machine.requests
  {
    match s.machine.requests[id]
    case Holding(q, records) => AnswerSettled(s.file, q, Ok(records))
    case Stamped(q, e) => AnswerSettled(s.file, q, Ok(e.value))
    case Asking(q) => id in s.searches ==> SearchSettled(s.file, q, s.searches[id])
    case _ => true
  }

  /** A stored answer is current for every question with its key. */
  ghost predicate EntryCurrent(file: Option<StoredFile>, key: string, value: seq<Record>) {
    forall q: Question :: HostnameKey(q) == key ==> AnswerFrom(file, q) == Ok(value)
  }

  /** Neither the cache nor a request on its way holds anything but current answers. */
  ghost predicate Settled(s: State) {
    && (forall key :: key in s.machine.cache ==> EntryCurrent(s.file, key, s.machine.cache[key].value))
    && (forall id :: id in s.machine.requests ==> RequestSettled(s, id))
  }

  predicate AllQuiet(steps: seq<Step>) {
    forall i :: 0 <= i < |steps| ==> Quiet(steps[i])
  }

  /** From position `n` of the log on, every lookup finds the current answer. */
  ghost predicate LookupsCurrent(log: seq<I.Event>, n: nat, file: Option<StoredFile>) {
    forall i :: n <= i < |log| && log[i].Looked? ==> EntryCurrent(file, log[i].key, log[i].entry.value)
  }

  ghost predicate SameAnswering(f: Option<StoredFile>, g: Option<StoredFile>) {
    && (forall q :: AnswerFrom(f, q) == AnswerFrom(g, q))
    && (forall q, rest :: RestAnswer(f, q, rest) == RestAnswer(g, q, rest))
  }

  lemma SameAnswers(f: Option<StoredFile>, g: Option<StoredFile>)
    requires SameCurrent(f, g)
    ensures SameAnswering(f, g)
  {
    SameCurrentAnswers(f, g);
    forall q, rest
      ensures RestAnswer(f, q, rest) == RestAnswer(g, q, rest)
    {
      if Current(f).Ok? {
        SameFirst(Current(f).value, Current(g).value, q, rest);
      }
    }
  }

  // ---- Quiet steps keep it so ----

  lemma CachedKeepsEntries(s: State, a: I.Action, key: string)
    requires Settled(s) && CanStep(s, Cached(a)) && key in I.Next(s.machine, a).cache
    ensures EntryCurrent(s.file, key, I.Next(s.machine, a).cache[key].value)
  {
    if a.Put? && key == HostnameKey(s.machine.requests[a.id].question) {
      var q := s.machine.requests[a.id].question;
      assert RequestSettled(s, a.id);
      forall p: Question | HostnameKey(p) == key
        ensures AnswerFrom(s.file, p) == AnswerFrom(s.file, q)
      {
        CoherentRuns.AnswerByKey(s.file, p, q);
      }
    } else {
      assert key in s.machine.cache && EntryCurrent(s.file, key, s.machine.cache[key].value);
    }
  }

  lemma CachedKeepsRequests(s: State, a: I.Action, id: nat)
    requires Settled(s) && OnlyAskersSearch(s) && CanStep(s, Cached(a)) && id in Next(s, Cached(a)).machine.requests
    ensures RequestSettled(Next(s, Cached(a)), id)
  {
    if id in s.machine.requests {
      assert RequestSettled(s, id);
    } else {
      assert id !in s.searches;
    }
  }

  lemma CachedLogs(s: State, a: I.Action)
    requires Settled(s) && CanStep(s, Cached(a))
    ensures s.machine.log <= I.Next(s.machine, a).log
    ensures LookupsCurrent(I.Next(s.machine, a).log, |s.machine.log|, s.file)
  {
    if a.Look? && HostnameKey(a.question) in s.machine.cache {
      var key := HostnameKey(a.question);
      assert EntryCurrent(s.file, key, s.machine.cache[key].value);
    }
  }

  lemma BeginSettled(s: State, id: nat)
    requires Asks(s, id)
    ensures SearchSettled(s.file, s.machine.requests[id].question, NewSearch(s.machine.requests[id].question))
  {
  }

  /** Trying a candidate leaves the file answering as before, and the search with what it would have come to. */
  lemma TrySettled(s: State, id: nat, io: Io)
    requires CanStep(s, Try(id, io)) && SearchSettled(s.file, s.machine.requests[id].question, s.searches[id])
    ensures var t := Next(s, Try(id, io));
            && SameAnswering(s.file, t.file)
            && id in t.searches
            && SearchSettled(t.file, s.machine.requests[id].question, t.searches[id])
  {
    var q, rest := s.machine.requests[id].question, s.searches[id].rest;
    if rest != [] {
      LoadKeepsAnswers(s.file, io);
      if Load(s.file, io).Ok? {
        var l := Load(s.file, io).value;
        SameAnswers(s.file, l.file);
        assert SolveHostname(l.config, q, rest[0]) == SolveHostname(Current(s.file).value, q, rest[0]);
      }
    }
  }

  /** A step that works on one request, and at most flushes, keeps the rest settled. */
  lemma OthersSettled(s: State, t: State, id: nat)
    requires Settled(s) && SameAnswering(s.file, t.file) && OnlyAskersSearch(s)
    requires forall k :: k in t.machine.cache ==> k in s.machine.cache && t.machine.cache[k] == s.machine.cache[k]
    requires forall k :: k in t.machine.requests && k != id ==>
               && k in s.machine.requests && t.machine.requests[k] == s.machine.requests[k]
               && (k in t.searches ==> k in s.searches && t.searches[k] == s.searches[k])
    requires id in t.machine.requests ==> RequestSettled(t, id)
    ensures Settled(t)
  {
    forall key | key in t.machine.cache
      ensures EntryCurrent(t.file, key, t.machine.cache[key].value)
    {
      assert EntryCurrent(s.file, key, s.machine.cache[key].value);
    }
    forall k | k in t.machine.requests
      ensures RequestSettled(t, k)
    {
      if k != id {
        assert RequestSettled(s, k);
      }
    }
  }

  /** Settled as before, on a file that answers as before, and every lookup meanwhile was current. */
  ghost predicate KeptSettled(s: State, t: State) {
    && Settled(t) && SameAnswering(s.file, t.file)
    && s.machine.log <= t.machine.log && LookupsCurrent(t.machine.log, |s.machine.log|, s.file)
  }

  lemma CachedStep(s: State, a: I.Action)
    requires Settled(s) && OnlyAskersSearch(s) && CanStep(s, Cached(a))
    ensures KeptSettled(s, Next(s, Cached(a)))
  {
    var t := Next(s, Cached(a));
    CachedLogs(s, a);
    forall key | key in t.machine.cache
      ensures EntryCurrent(t.file, key, t.machine.cache[key].value)
    {
      CachedKeepsEntries(s, a, key);
    }
    forall id | id in t.machine.requests
      ensures RequestSettled(t, id)
    {
      CachedKeepsRequests(s, a, id);
    }
  }

  lemma BeginStep(s: State, id: nat)
    requires Settled(s) && OnlyAskersSearch(s) && CanStep(s, Begin(id))
    ensures KeptSettled(s, Next(s, Begin(id)))
  {
    BeginSettled(s, id);
    OthersSettled(s, Next(s, Begin(id)), id);
  }

  lemma SearchMoved(s: State, t: State, id: nat)
    requires Settled(s) && OnlyAskersSearch(s) && Asks(s, id) && SameAnswering(s.file, t.file)
    requires t.machine == s.machine || t.machine == I.Next(s.machine, I.Flush)
    requires id in t.searches && t.searches == s.searches[id := t.searches[id]]
    requires SearchSettled(t.file, s.machine.requests[id].question, t.searches[id])
    ensures KeptSettled(s, t)
  {
    assert t.machine.requests == s.machine.requests;
    assert RequestSettled(t, id);
    OthersSettled(s, t, id);
  }

  lemma TryStep(s: State, id: nat, io: Io)
    requires Settled(s) && OnlyAskersSearch(s) && CanStep(s, Try(id, io))
    ensures KeptSettled(s, Next(s, Try(id, io)))
  {
    assert RequestSettled(s, id);
    TrySettled(s, id, io);
    TryShape(s, id, io);
    SearchMoved(s, Next(s, Try(id, io)), id);
  }

  lemma ReturnStep(s: State, id: nat)
    requires Settled(s) && OnlyAskersSearch(s) && CanStep(s, Return(id))
    ensures KeptSettled(s, Next(s, Return(id)))
  {
    var t := Next(s, Return(id));
    assert RequestSettled(s, id);
    OthersSettled(s, t, id);
  }

  lemma QuietStep(s: State, step: Step)
    requires Settled(s) && OnlyAskersSearch(s) && CanStep(s, step) && Quiet(step)
    ensures KeptSettled(s, Next(s, step))
  {
    match step {
      case Cached(a) => CachedStep(s, a);
      case Begin(id) => BeginStep(s, id);
      case Try(id, io) => TryStep(s, id, io);
      case Return(id) => ReturnStep(s, id);
    }
  }

  lemma KeptComposes(s: State, t: State, u: State)
    requires KeptSettled(s, t) && KeptSettled(t, u)
    ensures KeptSettled(s, u)
  {
    forall i | |s.machine.log| <= i < |u.machine.log| && u.machine.log[i].Looked?
      ensures EntryCurrent(s.file, u.machine.log[i].key, u.machine.log[i].entry.value)
    {
      if i < |t.machine.log| {
        assert u.machine.log[i] == t.machine.log[i];
      } else {
        assert EntryCurrent(t.file, u.machine.log[i].key, u.machine.log[i].entry.value);
      }
    }
  }

  lemma {:induction false} QuietRun(file: Option<StoredFile>, steps: seq<Step>, s: State, more: seq<Step>)
    requires Run(file, steps) == Some(s) && Settled(s) && AllQuiet(more) && Run(file, steps + more).Some?
    ensures KeptSettled(s, Run(file, steps + more).value)
  {
    if more == [] {
      assert steps + more == steps;
    } else {
      var front, last := more[..|more| - 1], more[|more| - 1];
      assert (steps + more)[..|steps + more| - 1] == steps + front;
      var t := Run(file, steps + front).value;
      QuietRun(file, steps, s, front);
      RunKeepsSearches(file, steps + front);
      QuietStep(t, last);
      KeptComposes(s, t, Next(t, last));
    }
  }
}
