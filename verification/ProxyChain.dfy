/** The chain the server uses: system, containers, cached local configuration, cached remote. */
module ProxyChain {
  import opened Wrappers
  import opened Dns
  import opened LocalVo
  import opened LocalEvents
  import opened CoherentRuns
  import opened Factory
  import DockerSolver
  import Candidates
  import LocalSolver
  import StorageV2

  function ReplyOf(answer: Outcome<seq<Record>>): Reply {
    match answer
    case Ok(records) => Reply(Some(records), false)
    case Error => Reply(None, true)
    case Panic => Crash
  }

  function DockerReplies(registry: map<string, string>): Solver {
    q => ReplyOf(DockerSolver.Solve(registry, q))
  }

  function LocalReplies(file: Option<StoredFile>): Solver {
    q => ReplyOf(AnswerFrom(file, q))
  }

  function CachedReplies(w: World, ios: nat -> Io, wait: nat): Solver {
    q => ReplyOf(Ask(w, q, ios, wait).1)
  }

  /** The solvers in the order they are asked. */
  function Solvers(system: Solver, registry: map<string, string>, local: Solver, remote: Solver): seq<Solver> {
    [system, DockerReplies(registry), local, remote]
  }

  lemma DockerNeverMarks(registry: map<string, string>)
    ensures NeverMarks(DockerReplies(registry))
  {
    forall q
      ensures ReplyClean(DockerReplies(registry)(q))
    {
      if DockerSolver.Solve(registry, q).Ok? {
        DockerSolver.NoAlias(registry, q);
      }
    }
  }

  /** Is the question answered from an entry of type CNAME? */
  predicate LocalAlias(file: Option<StoredFile>, q: Question) {
    AnswerFrom(file, q).Ok? && AnswerFrom(file, q).value != [] && AnswerFrom(file, q).value[0].rrtype == TYPE_CNAME
  }

  lemma LocalMarks(file: Option<StoredFile>, q: Question)
    ensures ReplyClean(LocalReplies(file)(q)) <==> !LocalAlias(file, q)
    ensures LocalAlias(file, q) ==>
              var r := AnswerFrom(file, q).value[0];
              r.data.Target? && AliasReply(LocalReplies(file)(q), q.name, r.data.target)
  {
    if AnswerFrom(file, q).Ok? {
      LocalSolver.AnswerShape(Current(file).value, q);
      if LocalAlias(file, q) {
        LocalSolver.SolveLaw(Current(file).value, q);
      }
    }
  }

  /**
   A question for a local alias that neither the system nor a container answers: the marker is sent out exactly
   when nothing answers the target, or the target is again a local alias; otherwise the response is the visible
   CNAME followed by exactly the target's records.
   */
  lemma AliasLaw(system: Solver, registry: map<string, string>, file: Option<StoredFile>, remote: Solver, q: Question)
    requires NeverMarks(system) && NeverMarks(remote)
    requires LocalAlias(file, q) && Reaches([system, DockerReplies(registry)], q)
    ensures var chain := Solvers(system, registry, LocalReplies(file), remote);
            var alias := AnswerFrom(file, q).value[0];
            alias.data.Target? &&
            var p := q.(name := alias.data.target);
            var t, r := ChainSolve(chain, p), CnameSolve(chain, chain, q);
            && (!ReplyClean(r) <==>
                t == Reply(None, true) || (Reaches([system, DockerReplies(registry)], p) && LocalAlias(file, p)))
            && (t.Reply? && t.msg.Some? && !t.failed ==>
                r == Reply(Some([alias.(class_ := CLASS_INET)] + t.msg.value), false))
  {
    var before, after := [system, DockerReplies(registry)], [remote];
    var local := LocalReplies(file);
    var chain := Solvers(system, registry, local, remote);
    assert chain == before + [local] + after;
    DockerNeverMarks(registry);
    assert OneMarks(before, after);
    LocalMarks(file, q);
    ChainSplits(before, local, after, q);
    var target := AnswerFrom(file, q).value[0].data.target;
    assert AliasReply(ChainSolve(chain, q), q.name, target);
    LocalMarks(file, q.(name := target));
    MarkerEscapes(before, local, after, chain, q, target);
  }

  /** The chain as a search: who answers a question, in the order system, containers, local, remote. */
  lemma ChainOrder(system: Solver, registry: map<string, string>, local: Solver, remote: Solver, q: Question)
    requires system(q).Reply? && system(q).msg.None?
    ensures var chain := Solvers(system, registry, local, remote);
            && (!DockerSolver.Solve(registry, q).Error? ==> FirstToReply(chain, q, 1))
            && (DockerSolver.Solve(registry, q).Error? && (local(q).Reply? ==> local(q).msg.Some?) ==>
                FirstToReply(chain, q, 2))
            && (DockerSolver.Solve(registry, q).Error? && local(q).Reply? && local(q).msg.None? ==>
                if remote(q).Reply? && remote(q).msg.None? then NoneReplies(chain, q) else FirstToReply(chain, q, 3))
  {
  }

  /**
   An ordinary question that the system leaves open is answered by the container's record, else by the local address
   entry's, else exactly as the remote solver replies, and fails if that has no message either.
   */
  lemma OrdinaryQuestion(system: Solver, registry: map<string, string>, file: Option<StoredFile>, remote: Solver,
                         second: seq<Solver>, q: Question)
    requires NeverMarks(remote) && system(q).Reply? && system(q).msg.None?
    ensures var r := CnameSolve(Solvers(system, registry, LocalReplies(file), remote), second, q);
            var docker, local := DockerSolver.Solve(registry, q), AnswerFrom(file, q);
            && (docker.Ok? ==> r == Reply(Some(docker.value), false))
            && (docker.Error? && local.Ok? && !LocalAlias(file, q) ==> r == Reply(Some(local.value), false))
            && (docker.Error? && local.Error? ==>
                r == if remote(q).Reply? && remote(q).msg.None? then Reply(None, true) else remote(q))
  {
    var chain := Solvers(system, registry, LocalReplies(file), remote);
    ChainOrder(system, registry, LocalReplies(file), remote, q);
    PassedOn(chain, second, q);
    DockerNeverMarks(registry);
    LocalMarks(file, q);
    assert ReplyClean(chain[1](q)) && ReplyClean(remote(q));
  }

  /** A question the system answers, but not with a marked alias, goes no further. */
  lemma SystemQuestion(system: Solver, registry: map<string, string>, local: Solver, remote: Solver,
                       second: seq<Solver>, q: Question)
    requires NeverMarks(system) && (system(q).Reply? ==> system(q).msg.Some?)
    ensures CnameSolve(Solvers(system, registry, local, remote), second, q) == system(q)
  {
    var chain := Solvers(system, registry, local, remote);
    assert FirstToReply(chain, q, 0) && ReplyClean(chain[0](q));
    PassedOn(chain, second, q);
  }

  /** A solver that never has an answer. */
  function NoAnswer(): Solver {
    q => Reply(None, true)
  }

  /** The alias of an unanswered target goes out with its marker. */
  lemma UnansweredAliasMarked(registry: map<string, string>, file: Option<StoredFile>, q: Question)
    requires LocalAlias(file, q) && DockerSolver.Solve(registry, q).Error?
    requires AnswerFrom(file, q).value[0].data.Target?
    requires var p := q.(name := AnswerFrom(file, q).value[0].data.target);
             DockerSolver.Solve(registry, p).Error? && AnswerFrom(file, p).Error?
    ensures var chain := Solvers(NoAnswer(), registry, LocalReplies(file), NoAnswer());
            !ReplyClean(CnameSolve(chain, chain, q))
  {
    var chain := Solvers(NoAnswer(), registry, LocalReplies(file), NoAnswer());
    var p := q.(name := AnswerFrom(file, q).value[0].data.target);
    AliasLaw(NoAnswer(), registry, file, NoAnswer(), q);
    ChainSource(chain, p);
    assert forall i :: 0 <= i < 4 ==> chain[i](p) == Reply(None, true);
  }

  const LONE_ALIAS := StorageV2.ConfigurationV2(
    2, [], [StorageV2.EnvV2("", [StorageV2.HostnameV2(1, "a", "", "b", 60, "CNAME")])], "", NO_SETTINGS, None, None)

  lemma LoneAliasHost(q: Question, key: string)
    ensures LoadVersionedConfiguration(V2(LONE_ALIAS)).Ok?
    ensures var c := LoadVersionedConfiguration(V2(LONE_ALIAS)).value;
            LocalSolver.SolveHostname(c, q, key) ==
            if key == "a" then Ok([Record(q.name, TYPE_CNAME, CLASS_ALIAS, 60, Target("b."))]) else Error
  {
    var c := LoadVersionedConfiguration(V2(LONE_ALIAS)).value;
    assert c.envs == [Env("", c.envs[0].hostnames)];
    assert c.envs[0].hostnames == [Hostname(1, "a", "", "b", 60, "CNAME")];
    assert "b" + "." == "b.";
  }

  lemma LoneAliasAnswer()
    ensures AnswerFrom(Some(V2(LONE_ALIAS)), Question("a.", TYPE_A, CLASS_INET)) ==
            Ok([Record("a.", TYPE_CNAME, CLASS_ALIAS, 60, Target("b."))])
  {
    var q := Question("a.", TYPE_A, CLASS_INET);
    LoneAliasHost(q, "a");
    assert q.name[..1] == "a" && ("." + "a")[1..] == "a";
    assert Candidates.AllHosts("." + "a")[0] == "a";
  }

  lemma LoneTargetUnanswered()
    ensures AnswerFrom(Some(V2(LONE_ALIAS)), Question("b.", TYPE_A, CLASS_INET)).Error?
  {
    var p := Question("b.", TYPE_A, CLASS_INET);
    var c := LoadVersionedConfiguration(V2(LONE_ALIAS)).value;
    var all := Candidates.AllHosts("." + "b");
    assert p.name[..1] == "b";
    Candidates.DotSuffixesExact("." + "b");
    forall i | 0 <= i < |all|
      ensures LocalSolver.SolveHostname(c, p, all[i]).Error?
    {
      if i == 0 {
        assert all[0] == ("." + "b")[1..] == "b";
      } else {
        assert all[i] == all[1..][i - 1] && all[1..] == Candidates.DotSuffixes("." + "b");
        assert Candidates.IsDotSuffix("." + "b", all[i]);
        assert all[i][0] == '.';
      }
      LoneAliasHost(p, all[i]);
    }
    NoneAnswers(c, p, all);
  }

  lemma {:induction false} NoneAnswers(c: Config, q: Question, candidates: seq<string>)
    requires forall i :: 0 <= i < |candidates| ==> LocalSolver.SolveHostname(c, q, candidates[i]).Error?
    ensures LocalSolver.FirstAnswer(c, q, candidates).Error?
  {
    if candidates != [] {
      NoneAnswers(c, q, candidates[1..]);
    }
  }

  lemma EmptyRegistry(q: Question)
    requires q.name != ""
    ensures DockerSolver.Solve(map[], q).Error?
  {
    DockerSolver.SolveLaw(map[], q);
  }

  /** One alias, and nothing answers its target: asked for a, the server sends the class-256 record. */
  lemma MarkerSent()
    ensures var chain := Solvers(NoAnswer(), map[], LocalReplies(Some(V2(LONE_ALIAS))), NoAnswer());
            !ReplyClean(CnameSolve(chain, chain, Question("a.", TYPE_A, CLASS_INET)))
  {
    var file, q := Some(V2(LONE_ALIAS)), Question("a.", TYPE_A, CLASS_INET);
    LoneAliasAnswer();
    LoneTargetUnanswered();
    EmptyRegistry(q);
    EmptyRegistry(q.(name := "b."));
    UnansweredAliasMarked(map[], file, q);
  }

  lemma CachedLikeUncached(w: World, ios: nat -> Io, wait: nat, q: Question)
    requires Coherent(w)
    ensures SameReply(CachedReplies(w, ios, wait)(q), LocalReplies(w.file)(q))
  {
    AskAgrees(w, q, ios, wait);
  }

  lemma SameSelf(r: Reply)
    ensures SameReply(r, r)
  {
  }

  /**
   With the cache in the chain the response is the one without it, TTLs aside, for aliases too: an alias served
   from the cache still has its target looked up. The second lookup may happen in any coherent state `v` whose file
   answers like the first one's: the state the first lookup left, or, when an earlier solver answered, the same
   state some time later. The other solvers may change in between.
   */
  lemma CachedChainAgrees(w: World, v: World, q: Question, ios: nat -> Io, wait: nat, ios': nat -> Io, wait': nat,
                          system: Solver, system': Solver, registry: map<string, string>,
                          registry': map<string, string>, remote: Solver, remote': Solver)
    requires Coherent(w) && Coherent(v) && forall p :: AnswerFrom(v.file, p) == AnswerFrom(w.file, p)
    ensures SameReply(
              CnameSolve(Solvers(system, registry, CachedReplies(w, ios, wait), remote),
                         Solvers(system', registry', CachedReplies(v, ios', wait'), remote'), q),
              CnameSolve(Solvers(system, registry, LocalReplies(w.file), remote),
                         Solvers(system', registry', LocalReplies(w.file), remote'), q))
  {
    var a := Solvers(system, registry, CachedReplies(w, ios, wait), remote);
    var b := Solvers(system, registry, LocalReplies(w.file), remote);
    var a' := Solvers(system', registry', CachedReplies(v, ios', wait'), remote');
    var b' := Solvers(system', registry', LocalReplies(w.file), remote');
    CachedLikeUncached(w, ios, wait, q);
    forall i | 0 <= i < 4
      ensures SameReply(a[i](q), b[i](q))
    {
      SameSelf(b[i](q));
    }
    forall i, p | 0 <= i < 4
      ensures SameReply(a'[i](p), b'[i](p))
    {
      CachedLikeUncached(v, ios', wait', p);
      assert AnswerFrom(v.file, p) == AnswerFrom(w.file, p);
      SameSelf(b'[i](p));
    }
    CnameIgnoresTtl(a, a', b, b', q);
  }

  /** Both states the chain can be in at the second lookup are of that kind. */
  lemma SecondLookupState(w: World, q: Question, ios: nat -> Io, wait: nat, later: nat, reached: bool)
    requires Coherent(w)
    ensures var first := if reached then Ask(w, q, ios, wait).0 else w;
            var v := first.(clock := first.clock + later);
            Coherent(v) && forall p :: AnswerFrom(v.file, p) == AnswerFrom(w.file, p)
  {
    AskAgrees(w, q, ios, wait);
    var first := if reached then Ask(w, q, ios, wait).0 else w;
    FewerAnswers(first, first.(clock := first.clock + later));
  }
}
