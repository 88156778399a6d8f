/** The caching solver: its key, the answers it stores and the copies it serves. */
module CacheSolver {
  import opened Wrappers
  import opened GoStrings
  import opened Dns
  import opened TimedCache
  import Lru
  import Ttl

  // ---- The key ----

  function HostnameKey(question: Question): string {
    question.name + "-" + Decimal(question.qtype)
  }

  lemma NoHyphenAfter(a: string, x: string, i: int)
    requires AllDigits(x) && |a| < i <= |a| + |x|
    ensures (a + "-" + x)[i] != '-'
  {
    assert (a + "-" + x)[i] == x[i - |a| - 1];
  }

  /** The digits after the last hyphen cannot be confused with the name. */
  lemma HyphenSplits(a: string, x: string, b: string, y: string)
    requires AllDigits(x) && AllDigits(y) && a + "-" + x == b + "-" + y
    ensures a == b && x == y
  {
    var s := a + "-" + x;
    assert s[|a|] == '-' && s[|b|] == (b + "-" + y)[|b|] == '-';
    if |a| != |b| {
      NoHyphenAfter(if |a| < |b| then a else b, if |a| < |b| then x else y, if |a| < |b| then |b| else |a|);
    }
    assert s[..|a|] == a && (b + "-" + y)[..|b|] == b;
    assert s[|a| + 1..] == x && (b + "-" + y)[|b| + 1..] == y;
  }

  /** Keys agree exactly when name and type do, whatever hyphens and digits the names hold. */
  lemma KeyInjective(p: Question, q: Question)
    ensures HostnameKey(p) == HostnameKey(q) <==> p.name == q.name && p.qtype == q.qtype
  {
    if HostnameKey(p) == HostnameKey(q) {
      HyphenSplits(p.name, Decimal(p.qtype), q.name, Decimal(q.qtype));
      DecimalInjective(p.qtype, q.qtype);
    }
  }

  // ---- Stored and served answers ----

  /** The first answer's TTL, or five seconds. */
  function GetTtl(records: seq<Record>): uint32 {
    if records == [] then 5 else records[0].ttl
  }

  type Answers = map<string, TimedValue<seq<Record>>>

  function StoredAnswer(records: seq<Record>, now: int): TimedValue<seq<Record>> {
    TimedValue(now, Ttl.Seconds(GetTtl(records)), records)
  }

  function ServedAnswer(stored: TimedValue<seq<Record>>, now: int): seq<Record> {
    WithTtl(stored.value, Ttl.ServedTtl(GetTtl(stored.value), now - stored.creation))
  }

  /**
   How long an answer lives: strictly less than its first record's TTL, in seconds, or than five seconds when it has
   no record.
   */
  lemma StoredLife(records: seq<Record>, stored: int, now: int)
    ensures StoredAnswer(records, stored).IsValid(now) <==>
            now - stored < (if records == [] then 5 else records[0].ttl) * Ttl.SECOND
  {
    Ttl.SecondsDoNotOverflow(GetTtl(records));
  }

  /** Only TTLs change, all to what is left of the first record's. */
  lemma ServedRecords(stored: TimedValue<seq<Record>>, now: int)
    ensures |ServedAnswer(stored, now)| == |stored.value|
    ensures forall i :: 0 <= i < |stored.value| ==>
              ServedAnswer(stored, now)[i] ==
              stored.value[i].(ttl := Ttl.ServedTtl(stored.value[0].ttl, now - stored.creation))
  {
  }

  /** Served within a second of a successful check: every record carries the first one's TTL minus the age. */
  lemma ServedInTime(records: seq<Record>, stored: int, checked: int, now: int)
    requires stored <= checked <= now < checked + Ttl.SECOND && StoredAnswer(records, stored).IsValid(checked)
    ensures var served := ServedAnswer(StoredAnswer(records, stored), now);
            |served| == |records| &&
            forall i :: 0 <= i < |records| ==>
              served[i] == records[i].(ttl := Ttl.Remaining(records[0].ttl, now - stored))
  {
    StoredLife(records, stored, checked);
    ServedRecords(StoredAnswer(records, stored), now);
    if records != [] {
      Ttl.SecondsDoNotOverflow(records[0].ttl);
      Ttl.ServedInTime(records[0].ttl, checked - stored, now - stored);
    }
  }

  predicate InTime(records: seq<Record>, stored: int, checked: int, now: int) {
    stored <= checked <= now < checked + Ttl.SECOND && StoredAnswer(records, stored).IsValid(checked)
  }

  /** No record served outlives its own TTL? */
  ghost predicate NoneOutlives(records: seq<Record>, stored: int) {
    forall checked, now, i ::
      InTime(records, stored, checked, now) && 0 <= i < |records| ==>
        ServedAnswer(StoredAnswer(records, stored), now)[i].ttl <= Ttl.Remaining(records[i].ttl, now - stored)
  }

  /** None does, in any hit served within a second of its check, exactly when the first TTL is the smallest. */
  lemma FirstTtlBounds(records: seq<Record>, stored: int)
    ensures NoneOutlives(records, stored) <==> forall i :: 0 <= i < |records| ==> records[0].ttl <= records[i].ttl
  {
    if forall i :: 0 <= i < |records| ==> records[0].ttl <= records[i].ttl {
      forall checked, now, i | InTime(records, stored, checked, now) && 0 <= i < |records|
        ensures ServedAnswer(StoredAnswer(records, stored), now)[i].ttl <= Ttl.Remaining(records[i].ttl, now - stored)
      {
        ServedInTime(records, stored, checked, now);
      }
    } else {
      var i :| 0 <= i < |records| && records[i].ttl < records[0].ttl;
      StoredLife(records, stored, stored);
      ServedInTime(records, stored, stored, stored);
      assert InTime(records, stored, stored, stored);
    }
  }

  /** An insert into an evicting cache: the new entry is there and every other entry was there before. */
  ghost predicate PutInto<V>(before: map<string, V>, after: map<string, V>, key: string, value: V) {
    && key in after && after[key] == value
    && forall k :: k in after && k != key ==> k in before && after[k] == before[k]
  }

  // ---- Stored messages as values ----

  type Entries = map<string, TimedValue<Msg>>

  ghost function Shared(entries: Entries): set<RR> {
    set k, rr: RR | k in entries && rr in entries[k].value.answer :: rr
  }

  ghost function AnswerOf(e: TimedValue<Msg>): TimedValue<seq<Record>>
    reads set rr | rr in e.value.answer
  {
    TimedValue(e.creation, e.timeout, e.value.Records())
  }

  /** The stored messages have these values. */
  ghost predicate Mirrors(entries: Entries, answers: Answers)
    reads Shared(entries)
  {
    entries.Keys == answers.Keys && forall k :: k in entries ==> answers[k] == AnswerOf(entries[k])
  }

  /** Putting a message puts its value. */
  lemma PutByValue(before: Entries, after: Entries, key: string, e: TimedValue<Msg>, answers: Answers)
    returns (kept: Answers)
    requires PutInto(before, after, key, e) && Mirrors(before, answers)
    ensures PutInto(answers, kept, key, AnswerOf(e)) && Mirrors(after, kept)
  {
    kept := map k | k in after :: AnswerOf(after[k]);
  }

  // ---- The solver object ----

  /** What a solver returns: possibly a message, possibly an error. */
  datatype Reply = Reply(msg: Option<Msg>, failed: bool)

  function FirstTtl(msg: Msg): (ttl: uint32)
    reads set rr | rr in msg.answer
    ensures ttl == GetTtl(msg.Records())
  {
    if msg.answer == [] then 5 else msg.answer[0].ttl
  }

  function StoredMsg(msg: Msg, now: int): TimedValue<Msg>
    reads set rr | rr in msg.answer
  {
    TimedValue(now, Ttl.Seconds(FirstTtl(msg)), msg)
  }

  method OverwriteTtls(msg: Msg, ttl: uint32)
    modifies set rr | rr in msg.answer
    ensures msg.Records() == WithTtl(old(msg.Records()), ttl)
  {
    ghost var originals := msg.Records();
    for i := 0 to |msg.answer|
      invariant forall j :: 0 <= j < |msg.answer| ==>
                  msg.answer[j].Value() == originals[j] || msg.answer[j].Value() == originals[j].(ttl := ttl)
      invariant forall j :: 0 <= j < i ==> msg.answer[j].ttl == ttl
    {
      msg.answer[i].ttl := ttl;
    }
    assert msg.Records() == WithTtl(originals, ttl);
  }

  /** A copy of a stored message with the time left at `served` written into every record. */
  method ServeCopy(tvalue: TimedValue<Msg>, served: int) returns (msg: Msg)
    ensures fresh(msg) && fresh(set rr | rr in msg.answer)
    ensures msg.header == tvalue.value.header
    ensures msg.Records() == ServedAnswer(old(AnswerOf(tvalue)), served)
    ensures var records := old(tvalue.value.Records());
            |msg.Records()| == |records| &&
            forall i :: 0 <= i < |records| ==>
              msg.Records()[i] == records[i].(ttl := Ttl.ServedTtl(records[0].ttl, served - tvalue.creation))
  {
    msg := tvalue.value.Copy();
    ghost var records := msg.Records();
    var left := Ttl.ServedTtl(FirstTtl(msg), served - tvalue.creation);
    assert ServedAnswer(old(AnswerOf(tvalue)), served) == WithTtl(records, left);
    ServedRecords(old(AnswerOf(tvalue)), served);
    OverwriteTtls(msg, left);
  }

  /**
   What goes out: a reply with the id, the opcode and, for a plain query, the two flags of the request, and with the
   response code the message had.
   */
  predicate IsSent(msg: Msg, question: Question, request: Header, had: Header)
    reads msg`header, msg`question
  {
    && msg.question == [question]
    && msg.header.response && msg.header.id == request.id && msg.header.opcode == request.opcode
    && msg.header.rcode == had.rcode
    && (if request.opcode == OPCODE_QUERY
        then msg.header.recursionDesired == request.recursionDesired &&
             msg.header.checkingDisabled == request.checkingDisabled
        else msg.header.recursionDesired == had.recursionDesired &&
             msg.header.checkingDisabled == had.checkingDisabled)
  }

  /** The response code is kept over the reply header, which would reset it. */
  method Send(msg: Msg, question: Question, request: Header)
    modifies msg`header, msg`question
    ensures IsSent(msg, question, request, old(msg.header))
    ensures msg.Records() == old(msg.Records())
  {
    var rcode := msg.header.rcode;
    msg.SetReply(request, question);
    msg.header := msg.header.(rcode := rcode);
  }

  class CacheDnsSolver {
    const c: TimedCache<Msg>

    constructor (c: TimedCache<Msg>)
      ensures this.c == c
    {
      this.c := c;
    }

    ghost predicate Valid()
      reads c.cache
    {
      c.Valid()
    }

    /**
     A hit is served as a fresh copy whose records all carry the remaining time of the first. No stored
     message is written to.
     */
    method DoSolve(hostname: string, checked: int, served: int) returns (r: Option<Msg>)
      requires Valid()
      modifies c.cache
      ensures Valid() && c.cache.entries == AfterRead(old(c.cache.entries), hostname, checked)
      ensures match ValidAt(old(c.cache.entries), hostname, checked)
              case None => r.None?
              case Some(hit) =>
                && r.Some? && fresh(r.value) && fresh(set rr | rr in r.value.answer)
                && r.value.header == hit.value.header
                && r.value.Records() == ServedAnswer(old(AnswerOf(hit)), served)
    {
      var tvalue := c.GetTimeValue(hostname, checked);
      if tvalue.None? {
        return None;
      }
      var msg := ServeCopy(tvalue.value, served);
      r := Some(msg);
    }

    /** The same on values. */
    method LookUpByValue(hostname: string, checked: int, served: int, ghost answers: Answers) returns (r: Option<Msg>)
      requires Valid() && Mirrors(c.cache.entries, answers)
      modifies c.cache
      ensures Valid() && Mirrors(c.cache.entries, AfterRead(answers, hostname, checked))
      ensures match ValidAt(answers, hostname, checked)
              case None => r.None?
              case Some(hit) => r.Some? && r.value.Records() == ServedAnswer(hit, served)
    {
      ghost var entries := c.cache.entries;
      r := DoSolve(hostname, checked, served);
      forall k | k in entries
        ensures AnswerOf(entries[k]) == old(AnswerOf(entries[k]))
      {
      }
    }

    /** The delegate's message is both returned and stored, unless it failed. */
    method StoreReply(question: Question, reply: Reply, stored: int)
      requires Valid() && (!reply.failed ==> reply.msg.Some?)
      modifies c.cache
      ensures Valid()
      ensures if reply.failed then c.cache.entries == old(c.cache.entries)
              else PutInto(old(c.cache.entries), c.cache.entries, HostnameKey(question),
                           StoredMsg(reply.msg.value, stored))
      ensures !reply.failed ==>
                var records, e := reply.msg.value.Records(), c.cache.entries[HostnameKey(question)];
                && e.value == reply.msg.value && e.creation == stored
                && e.timeout == (if records == [] then 5 else records[0].ttl) * Ttl.SECOND
    {
      if reply.failed {
        return;
      }
      var msg := reply.msg.value;
      var ttl := FirstTtl(msg);
      Ttl.SecondsDoNotOverflow(ttl);
      Lru.AddedKeeps(c.cache.View(), c.cache.size, HostnameKey(question), StoredMsg(msg, stored));
      c.PutTTL(HostnameKey(question), msg, ttl, stored);
    }

    /** The same on values. */
    method StoreByValue(question: Question, msg: Msg, stored: int, ghost answers: Answers)
      returns (ghost after: Answers)
      requires Valid() && Mirrors(c.cache.entries, answers)
      modifies c.cache
      ensures Valid() && Mirrors(c.cache.entries, after)
      ensures PutInto(answers, after, HostnameKey(question), StoredAnswer(old(msg.Records()), stored))
    {
      ghost var before := c.cache.entries;
      StoreReply(question, Reply(Some(msg), false), stored);
      forall k | k in before
        ensures AnswerOf(before[k]) == old(AnswerOf(before[k]))
      {
      }
      after := PutByValue(before, c.cache.entries, HostnameKey(question), StoredMsg(msg, stored), answers);
    }

    /** Lookup, then on a miss the delegate's reply; `delegate` stands for whatever it would reply. */
    method Solve(question: Question, delegate: Reply, checked: int, served: int, stored: int)
      returns (r: Reply, delegated: bool)
      requires Valid() && (!delegate.failed ==> delegate.msg.Some?)
      modifies c.cache
      ensures Valid()
      ensures var key, before := HostnameKey(question), old(c.cache.entries);
              match ValidAt(before, key, checked)
              case Some(hit) =>
                && !delegated && !r.failed && r.msg.Some? && fresh(r.msg.value)
                && r.msg.value.header == hit.value.header
                && r.msg.value.Records() == ServedAnswer(old(AnswerOf(hit)), served)
                && c.cache.entries == before
              case None =>
                && delegated && r == delegate
                && if delegate.failed then c.cache.entries == AfterRead(before, key, checked)
                   else PutInto(AfterRead(before, key, checked), c.cache.entries, key,
                                StoredMsg(delegate.msg.value, stored))
    {
      var hit := DoSolve(HostnameKey(question), checked, served);
      if hit.Some? {
        return Reply(hit, false), false;
      }
      StoreReply(question, delegate, stored);
      r, delegated := delegate, true;
    }

    /**
     Serving a question: the message sent becomes a reply to the request but keeps its response code, even when
     it is the very object in the cache. The records of every message there was stay what they were.
     */
    method Respond(question: Question, request: Header, delegate: Reply, checked: int, served: int, stored: int)
      returns (r: Reply)
      requires Valid() && (!delegate.failed ==> delegate.msg.Some?)
      modifies c.cache, (if delegate.msg.Some? then {delegate.msg.value} else {})`header,
               (if delegate.msg.Some? then {delegate.msg.value} else {})`question
      ensures Valid()
      ensures forall k :: k in old(c.cache.entries) ==>
                old(c.cache.entries)[k].value.Records() == old(c.cache.entries[k].value.Records())
      ensures match ValidAt(old(c.cache.entries), HostnameKey(question), checked)
              case Some(hit) =>
                && r.msg.Some? && IsSent(r.msg.value, question, request, old(hit.value.header))
                && r.msg.value.Records() == ServedAnswer(old(AnswerOf(hit)), served)
              case None =>
                && r == delegate
                && (r.msg.Some? ==> IsSent(r.msg.value, question, request, old(delegate.msg.value.header)) &&
                                    r.msg.value.Records() == old(delegate.msg.value.Records()))
    {
      ghost var before := c.cache.entries;
      var delegated;
      r, delegated := Solve(question, delegate, checked, served, stored);
      if r.msg.Some? {
        ghost var had, records := r.msg.value.header, r.msg.value.Records();
        Send(r.msg.value, question, request);
        assert IsSent(r.msg.value, question, request, had) && r.msg.value.Records() == records;
      }
    }
  }
}
