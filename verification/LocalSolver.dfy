/** Answering from the active environment of a configuration. */
module LocalSolver {
  import opened Wrappers
  import opened Dns
  import opened IpUtils
  import opened LocalVo
  import opened Candidates
  import Ttl

  function GetAMsg(q: Question, h: Hostname): Outcome<seq<Record>> {
    match ParseQuad(h.ip)
    case Ok(ip) => Ok([Record(q.name, TYPE_A, CLASS_INET, Ttl.Uint32(h.ttl), Address(ip))])
    case _ => Panic
  }

  function GetCnameMsg(q: Question, h: Hostname): seq<Record> {
    [Record(q.name, TYPE_CNAME, CLASS_ALIAS, Ttl.Uint32(h.ttl), Target(h.target + "."))]
  }

  /** One candidate against the active environment. */
  function SolveHostname(c: Config, q: Question, key: string): Outcome<seq<Record>> {
    var i := FindEnv(c.envs, c.activeEnv);
    if i == -1 then Error
    else
      var j := FindHostname(c.envs[i], key);
      if j == -1 then Error
      else
        var h := c.envs[i].hostnames[j];
        if h.entryType == A || h.entryType == "" then GetAMsg(q, h)
        else if h.entryType == CNAME then Ok(GetCnameMsg(q, h))
        else Error
  }

  function FirstAnswer(c: Config, q: Question, candidates: seq<string>): Outcome<seq<Record>> {
    if candidates == [] then Error
    else if SolveHostname(c, q, candidates[0]).Error? then FirstAnswer(c, q, candidates[1..])
    else SolveHostname(c, q, candidates[0])
  }

  /** The question's name without its final character; an empty name has none to cut. */
  function Solve(c: Config, q: Question): Outcome<seq<Record>> {
    if q.name == "" then Panic
    else FirstAnswer(c, q, AllHosts("." + q.name[..|q.name| - 1]))
  }

  // ---- What it finds ----

  /** The first entry of the active environment with this name can be answered from. */
  predicate Registered(c: Config, key: string) {
    var i := FindEnv(c.envs, c.activeEnv);
    i != -1 &&
    var j := FindHostname(c.envs[i], key);
    j != -1 && c.envs[i].hostnames[j].entryType in {A, "", CNAME}
  }

  lemma {:induction false} FirstAnswerIsLookup(c: Config, q: Question, candidates: seq<string>)
    ensures FirstAnswer(c, q, candidates) ==
            match FirstRegistered(candidates, k => Registered(c, k))
            case None => Error
            case Some(key) => SolveHostname(c, q, key)
  {
    if candidates != [] {
      FirstAnswerIsLookup(c, q, candidates[1..]);
    }
  }

  /**
   A question fails exactly when neither its name nor a dot suffix of it is registered; otherwise it is
   answered from the exact name, failing that from the longest registered suffix.
   */
  lemma SolveLaw(c: Config, q: Question)
    requires q.name != ""
    ensures var name := q.name[..|q.name| - 1];
            && (Solve(c, q).Error? <==>
                !Registered(c, name) && forall s :: IsDotSuffix("." + name, s) ==> !Registered(c, s))
            && (!Solve(c, q).Error? ==>
                exists key ::
                  && Registered(c, key) && Solve(c, q) == SolveHostname(c, q, key)
                  && if Registered(c, name) then key == name
                     else IsDotSuffix("." + name, key) &&
                          forall s :: IsDotSuffix("." + name, s) && Registered(c, s) ==> s == key || |s| < |key|)
  {
    var name := q.name[..|q.name| - 1];
    var registered := k => Registered(c, k);
    FirstAnswerIsLookup(c, q, AllHosts("." + name));
    LookupLaw(name, registered);
    match Lookup(name, registered) {
      case None =>
        assert forall s :: registered(s) == Registered(c, s);
      case Some(key) => assert registered(key) && Registered(c, key);
    }
  }

  /** An answer is one record carrying the question's name; its class tells addresses from aliases. */
  lemma AnswerShape(c: Config, q: Question)
    requires Solve(c, q).Ok?
    ensures var r := Solve(c, q).value;
            && |r| == 1 && r[0].name == q.name
            && (r[0].class_ == CLASS_ALIAS <==> r[0].rrtype == TYPE_CNAME)
            && (r[0].rrtype == TYPE_A || r[0].rrtype == TYPE_CNAME)
  {
    SolveLaw(c, q);
  }

  lemma TtlKept(ttl: int)
    requires 0 <= ttl < 0x1_0000_0000
    ensures Ttl.Uint32(ttl) == ttl
  {
  }

  lemma AddressAnswered(q: Question, h: Hostname, ip: Quad)
    requires h.ip == ToIpString(ip)
    ensures GetAMsg(q, h) == Ok([Record(q.name, TYPE_A, CLASS_INET, Ttl.Uint32(h.ttl), Address(ip))])
  {
    IpRoundTrip(ZERO_IP, ip);
  }

  /**
   What the record says: an address entry holding four printed bytes is answered with those bytes, an alias with
   its target made absolute, both with the entry's TTL. No other entry type is answered.
   */
  lemma AnswerContents(c: Config, q: Question, key: string, ip: Quad)
    requires FindEnv(c.envs, c.activeEnv) != -1 && FindHostname(c.envs[FindEnv(c.envs, c.activeEnv)], key) != -1
    ensures var env := c.envs[FindEnv(c.envs, c.activeEnv)];
            var h := env.hostnames[FindHostname(env, key)];
            && (h.entryType in {A, ""} && h.ip == ToIpString(ip) && 0 <= h.ttl < 0x1_0000_0000 ==>
                SolveHostname(c, q, key) == Ok([Record(q.name, TYPE_A, CLASS_INET, h.ttl, Address(ip))]))
            && (h.entryType == CNAME && 0 <= h.ttl < 0x1_0000_0000 ==>
                SolveHostname(c, q, key) ==
                Ok([Record(q.name, TYPE_CNAME, CLASS_ALIAS, h.ttl, Target(h.target + "."))]))
            && (SolveHostname(c, q, key).Error? <==> h.entryType !in {A, "", CNAME})
  {
    var env := c.envs[FindEnv(c.envs, c.activeEnv)];
    var h := env.hostnames[FindHostname(env, key)];
    if 0 <= h.ttl < 0x1_0000_0000 {
      TtlKept(h.ttl);
    }
    if h.entryType in {A, ""} && h.ip == ToIpString(ip) {
      AddressAnswered(q, h, ip);
    }
  }

  /**
   After an accepted change of the active environment, questions are answered from the first environment of that
   name: its entries' addresses, targets and TTLs, and nothing for a name it does not list.
   */
  lemma ActiveAnswers(c: Config, name: string, q: Question, key: string, ip: Quad)
    requires Apply(c, SetActive(name)).Ok?
    ensures FindEnv(c.envs, name) != -1
    ensures var d, env := Apply(c, SetActive(name)).value, c.envs[FindEnv(c.envs, name)];
            if FindHostname(env, key) == -1 then SolveHostname(d, q, key).Error?
            else
              var h := env.hostnames[FindHostname(env, key)];
              && (h.entryType in {A, ""} && h.ip == ToIpString(ip) && 0 <= h.ttl < 0x1_0000_0000 ==>
                  SolveHostname(d, q, key) == Ok([Record(q.name, TYPE_A, CLASS_INET, h.ttl, Address(ip))]))
              && (h.entryType == CNAME && 0 <= h.ttl < 0x1_0000_0000 ==>
                  SolveHostname(d, q, key) ==
                  Ok([Record(q.name, TYPE_CNAME, CLASS_ALIAS, h.ttl, Target(h.target + "."))]))
              && (SolveHostname(d, q, key).Error? <==> h.entryType !in {A, "", CNAME})
  {
    var d, env := Apply(c, SetActive(name)).value, c.envs[FindEnv(c.envs, name)];
    if FindHostname(env, key) != -1 {
      AnswerContents(d, q, key, ip);
    }
  }

  /** Only the question's name matters: not its type, not its class. */
  lemma {:induction false} OnlyNameMatters(c: Config, q: Question, r: Question, candidates: seq<string>)
    requires q.name == r.name
    ensures FirstAnswer(c, q, candidates) == FirstAnswer(c, r, candidates)
  {
    if candidates != [] {
      OnlyNameMatters(c, q, r, candidates[1..]);
    }
  }
}
