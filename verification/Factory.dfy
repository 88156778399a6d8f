/** The solver chain, and the factory around it that follows one alias. */
module Factory {
  import opened Wrappers
  import opened Dns

  /** A message, an error, or both; a crash takes the request with it. */
  datatype Reply = Reply(msg: Option<seq<Record>>, failed: bool) | Crash

  /** A solver at one moment: what it replies to each question. */
  type Solver = Question -> Reply

  /** The first message wins, whatever error comes with it. */
  function ChainSolve(solvers: seq<Solver>, q: Question): Reply {
    if solvers == [] then Reply(None, true)
    else
      match solvers[0](q)
      case Crash => Crash
      case Reply(Some(records), failed) => Reply(Some(records), failed)
      case Reply(None, _) => ChainSolve(solvers[1..], q)
  }

  predicate IsAlias(r: Record) {
    r.rrtype == TYPE_CNAME && r.class_ == CLASS_ALIAS
  }

  /** The alias as it goes out. */
  function Visible(alias: Record, target: string): Record {
    Record(alias.name, TYPE_CNAME, CLASS_INET, alias.ttl, Target(target))
  }

  /**
   The chain is asked twice when the first answer is an alias: `first` and `second` are the solvers at those
   two moments. A record typed CNAME without a target crashes.
   */
  function CnameSolve(first: seq<Solver>, second: seq<Solver>, q: Question): Reply {
    match ChainSolve(first, q)
    case Crash => Crash
    case Reply(None, failed) => Reply(None, failed)
    case Reply(Some(records), failed) =>
      if failed || records == [] || !IsAlias(records[0]) then Reply(Some(records), failed)
      else if !records[0].data.Target? then Crash
      else
        var target := records[0].data.target;
        match ChainSolve(second, q.(name := target))
        case Crash => Crash
        case Reply(None, _) => Reply(Some(records), false)
        case Reply(Some(more), true) => Reply(None, true)
        case Reply(Some(more), false) => Reply(Some([Visible(records[0], target)] + more), false)
  }

  predicate NoMarker(records: seq<Record>) {
    forall i :: 0 <= i < |records| ==> records[i].class_ != CLASS_ALIAS
  }

  predicate ReplyClean(r: Reply) {
    r.Reply? && r.msg.Some? ==> NoMarker(r.msg.value)
  }

  ghost predicate NeverMarks(s: Solver) {
    forall q :: ReplyClean(s(q))
  }

  // ---- The chain as a search ----

  /** The reply comes from the first solver with a message or a crash. */
  lemma {:induction false} ChainSource(solvers: seq<Solver>, q: Question)
    ensures if exists i ::
                 0 <= i < |solvers| && solvers[i](q) != Reply(None, true) && solvers[i](q) != Reply(None, false)
            then exists i :: 0 <= i < |solvers| && ChainSolve(solvers, q) == solvers[i](q)
                             && (solvers[i](q).Reply? ==> solvers[i](q).msg.Some?)
                             && forall j :: 0 <= j < i ==> solvers[j](q).Reply? && solvers[j](q).msg.None?
            else ChainSolve(solvers, q) == Reply(None, true)
  {
    if solvers != [] && solvers[0](q).Reply? && solvers[0](q).msg.None? {
      var rest := solvers[1..];
      ChainSource(rest, q);
      assert forall i :: 1 <= i < |solvers| ==> solvers[i] == rest[i - 1];
      assert forall i :: 0 <= i < |rest| ==> rest[i] == solvers[i + 1];
      if i :| 0 <= i < |rest| && ChainSolve(rest, q) == rest[i](q)
              && (rest[i](q).Reply? ==> rest[i](q).msg.Some?)
              && forall j :: 0 <= j < i ==> rest[j](q).Reply? && rest[j](q).msg.None? {
        assert ChainSolve(solvers, q) == solvers[i + 1](q);
      }
    }
  }

  /** The solver at `i` is the first with a message, or the first to crash. */
  ghost predicate FirstToReply(solvers: seq<Solver>, q: Question, i: int) {
    && 0 <= i < |solvers| && (solvers[i](q).Reply? ==> solvers[i](q).msg.Some?)
    && forall j :: 0 <= j < i ==> solvers[j](q).Reply? && solvers[j](q).msg.None?
  }

  ghost predicate NoneReplies(solvers: seq<Solver>, q: Question) {
    forall j :: 0 <= j < |solvers| ==> solvers[j](q).Reply? && solvers[j](q).msg.None?
  }

  lemma {:induction false} FirstReplies(solvers: seq<Solver>, q: Question, i: nat)
    requires FirstToReply(solvers, q, i)
    ensures ChainSolve(solvers, q) == solvers[i](q)
  {
    if i > 0 {
      assert forall j :: 0 <= j < |solvers| - 1 ==> solvers[1..][j] == solvers[j + 1];
      FirstReplies(solvers[1..], q, i - 1);
    }
  }

  lemma {:induction false} NobodyReplies(solvers: seq<Solver>, q: Question)
    requires NoneReplies(solvers, q)
    ensures ChainSolve(solvers, q) == Reply(None, true)
  {
    if solvers != [] {
      assert forall j :: 0 <= j < |solvers| - 1 ==> solvers[1..][j] == solvers[j + 1];
      NobodyReplies(solvers[1..], q);
    }
  }

  /**
   The first reply goes out as it is whenever it is a crash, failed, is empty, or does not begin with a record of type 5
   and class 256. Without any reply the question fails.
   */
  lemma PassedOn(first: seq<Solver>, second: seq<Solver>, q: Question)
    ensures NoneReplies(first, q) ==> CnameSolve(first, second, q) == Reply(None, true)
    ensures forall i :: FirstToReply(first, q, i) ==>
              var r := first[i](q);
              r.Crash? || r.failed || r.msg.value == [] ||
              r.msg.value[0].rrtype != 5 || r.msg.value[0].class_ != 256 ==>
                CnameSolve(first, second, q) == r
  {
    if NoneReplies(first, q) {
      NobodyReplies(first, q);
    }
    forall i | FirstToReply(first, q, i)
      ensures ChainSolve(first, q) == first[i](q)
    {
      FirstReplies(first, q, i);
    }
  }

  // ---- Following an alias ----

  /** The chain: solvers that never mark, one that may, and more that never do. */
  ghost predicate OneMarks(before: seq<Solver>, after: seq<Solver>) {
    (forall i :: 0 <= i < |before| ==> NeverMarks(before[i])) && forall i :: 0 <= i < |after| ==> NeverMarks(after[i])
  }

  lemma {:induction false} CleanChain(solvers: seq<Solver>, q: Question)
    requires forall i :: 0 <= i < |solvers| ==> NeverMarks(solvers[i])
    ensures ReplyClean(ChainSolve(solvers, q))
  {
    if solvers != [] {
      assert NeverMarks(solvers[0]);
      CleanChain(solvers[1..], q);
    }
  }

  /** Does the marking solver get to answer? */
  predicate Reaches(before: seq<Solver>, q: Question) {
    forall i :: 0 <= i < |before| ==> before[i](q).Reply? && before[i](q).msg.None?
  }

  lemma {:induction false} ChainSplits(before: seq<Solver>, local: Solver, after: seq<Solver>, q: Question)
    ensures Reaches(before, q) ==> ChainSolve(before + [local] + after, q) == ChainSolve([local] + after, q)
    ensures !Reaches(before, q) ==> ChainSolve(before + [local] + after, q) == ChainSolve(before, q)
  {
    var all := before + [local] + after;
    if before == [] {
      assert all == [local] + after;
    } else {
      var rest := before[1..];
      assert all[1..] == rest + [local] + after && all[0] == before[0];
      ChainSplits(rest, local, after, q);
      assert forall i :: 1 <= i < |before| ==> before[i] == rest[i - 1];
      assert forall i :: 0 <= i < |rest| ==> rest[i] == before[i + 1];
      assert Reaches(before, q) <==> before[0](q).Reply? && before[0](q).msg.None? && Reaches(rest, q);
    }
  }

  /** A marker comes out of the chain exactly when the marking solver answers with one. */
  lemma MarkerSource(before: seq<Solver>, local: Solver, after: seq<Solver>, q: Question)
    requires OneMarks(before, after)
    ensures !ReplyClean(ChainSolve(before + [local] + after, q)) <==> Reaches(before, q) && !ReplyClean(local(q))
  {
    ChainSplits(before, local, after, q);
    CleanChain(before, q);
    CleanChain(after, q);
    assert ([local] + after)[1..] == after;
  }

  /** What answers a question with an alias: one record, marked, with the question's name and a target. */
  predicate AliasReply(r: Reply, name: string, target: string) {
    && r.Reply? && !r.failed && r.msg.Some? && |r.msg.value| == 1
    && IsAlias(r.msg.value[0]) && r.msg.value[0].name == name && r.msg.value[0].data == Target(target)
  }

  /**
   Following an alias. Resolved: one visible CNAME with the question's name and the target, then exactly the
   target's records. A failing target fails the question; an unanswered one sends the marked alias out.
   */
  lemma AliasFollowed(first: seq<Solver>, second: seq<Solver>, q: Question, target: string)
    requires AliasReply(ChainSolve(first, q), q.name, target)
    ensures var r, t := CnameSolve(first, second, q), ChainSolve(second, q.(name := target));
            match t
            case Crash => r == Crash
            case Reply(None, _) => r == ChainSolve(first, q) && !ReplyClean(r)
            case Reply(Some(_), true) => r == Reply(None, true)
            case Reply(Some(more), false) =>
              && r.Reply? && !r.failed && r.msg.Some? && |r.msg.value| == 1 + |more|
              && r.msg.value[0].name == q.name && r.msg.value[0].rrtype == TYPE_CNAME
              && r.msg.value[0].class_ == CLASS_INET && r.msg.value[0].data == Target(target)
              && r.msg.value[0].ttl == ChainSolve(first, q).msg.value[0].ttl
              && r.msg.value[1..] == more
  {
    assert ChainSolve(first, q).msg.value[0].class_ == CLASS_ALIAS;
  }

  /**
   On the solvers: the alias of solver `i`, whose target solver `k` answers, becomes a visible CNAME followed by exactly
   that answer; a failed answer fails the question, a crash crashes it. An unanswered target sends the alias out.
   */
  lemma AliasOnSolvers(first: seq<Solver>, second: seq<Solver>, q: Question, target: string, i: nat)
    requires FirstToReply(first, q, i) && AliasReply(first[i](q), q.name, target)
    ensures var p, alias := q.(name := target), first[i](q).msg.value[0];
            && (NoneReplies(second, p) ==> CnameSolve(first, second, q) == first[i](q))
            && forall k :: FirstToReply(second, p, k) ==>
                 CnameSolve(first, second, q) ==
                 match second[k](p)
                 case Crash => Crash
                 case Reply(_, true) => Reply(None, true)
                 case Reply(more, false) =>
                   Reply(Some([Record(q.name, 5, 1, alias.ttl, Target(target))] + more.value), false)
  {
    var p := q.(name := target);
    FirstReplies(first, q, i);
    if NoneReplies(second, p) {
      NobodyReplies(second, p);
    }
    forall k | FirstToReply(second, p, k)
      ensures ChainSolve(second, p) == second[k](p)
    {
      FirstReplies(second, p, k);
    }
  }

  /**
   The marker leaves the server exactly when the target of the alias is unanswered, or is answered by the
   marking solver with another alias: only one step is followed.
   */
  lemma MarkerEscapes(before: seq<Solver>, local: Solver, after: seq<Solver>, first: seq<Solver>, q: Question,
                      target: string)
    requires OneMarks(before, after) && AliasReply(ChainSolve(first, q), q.name, target)
    ensures var second := before + [local] + after;
            var p := q.(name := target);
            !ReplyClean(CnameSolve(first, second, q)) <==>
              ChainSolve(second, p) == Reply(None, true) ||
              (Reaches(before, p) && !ReplyClean(local(p)) && !local(p).failed)
  {
    var second := before + [local] + after;
    var p := q.(name := target);
    AliasFollowed(first, second, q, target);
    MarkerSource(before, local, after, p);
    ChainSplits(before, local, after, p);
    ChainSource(second, p);
    var t := ChainSolve(second, p);
    if t.Reply? && t.msg.Some? && !t.failed {
      var r := CnameSolve(first, second, q).msg.value;
      assert forall i :: 1 <= i < |r| ==> r[i] == r[1..][i - 1];
      assert forall i :: 0 <= i < |r| - 1 ==> r[1..][i] == r[i + 1];
    }
  }

  // ---- The chain does not look at TTLs ----

  predicate SameReply(a: Reply, b: Reply) {
    match (a, b)
    case (Reply(Some(x), f), Reply(Some(y), g)) => f == g && SameRecords(x, y)
    case _ => a == b
  }

  lemma {:induction false} ChainIgnoresTtl(a: seq<Solver>, b: seq<Solver>, q: Question)
    requires |a| == |b| && forall i :: 0 <= i < |a| ==> SameReply(a[i](q), b[i](q))
    ensures SameReply(ChainSolve(a, q), ChainSolve(b, q))
  {
    if a != [] {
      assert SameReply(a[0](q), b[0](q));
      ChainIgnoresTtl(a[1..], b[1..], q);
    }
  }

  /** Chains that agree up to TTLs at both moments give responses that agree up to TTLs, aliases included. */
  lemma CnameIgnoresTtl(a: seq<Solver>, a': seq<Solver>, b: seq<Solver>, b': seq<Solver>, q: Question)
    requires |a| == |b| && |a'| == |b'|
    requires forall i :: 0 <= i < |a| ==> SameReply(a[i](q), b[i](q))
    requires forall i, p :: 0 <= i < |a'| ==> SameReply(a'[i](p), b'[i](p))
    ensures SameReply(CnameSolve(a, a', q), CnameSolve(b, b', q))
  {
    ChainIgnoresTtl(a, b, q);
    var x, y := ChainSolve(a, q), ChainSolve(b, q);
    if x.Reply? && x.msg.Some? && x.msg.value != [] {
      var r, s := x.msg.value[0], y.msg.value[0];
      assert r.(ttl := 0) == s.(ttl := 0);
      assert r.(ttl := 0).data == s.(ttl := 0).data && r.(ttl := 0).class_ == s.(ttl := 0).class_;
      assert r.(ttl := 0).name == s.(ttl := 0).name && r.(ttl := 0).rrtype == s.(ttl := 0).rrtype;
      if r.data.Target? {
        ChainIgnoresTtl(a', b', q.(name := r.data.target));
      }
    }
  }
}
