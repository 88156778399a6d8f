/** Answering from the container registry. */
module DockerSolver {
  import opened Wrappers
  import opened GoStrings
  import opened Dns
  import opened IpUtils
  import opened Candidates
  import opened Lru

  /** `strconv.Atoi` with its error ignored: zero for a text that is no number, the nearest int for one out of range. */
  function AtoiLax(s: string): int {
    match Atoi(s)
    case Some(n) => n
    case None =>
      var signed := s != "" && (s[0] == '-' || s[0] == '+');
      var body := if signed then s[1..] else s;
      if body == "" || !AllDigits(body) then 0 else if signed && s[0] == '-' then MIN_INT else MAX_INT
  }

  /** Fewer than four pieces panic; further ones are ignored. */
  function GetMsg(ip: string, q: Question): Outcome<seq<Record>> {
    var parts := Split(ip, '.');
    if |parts| < 4 then Panic
    else
      var bytes := [LowByte(AtoiLax(parts[0])), LowByte(AtoiLax(parts[1])),
                    LowByte(AtoiLax(parts[2])), LowByte(AtoiLax(parts[3]))];
      Ok([Record(q.name, TYPE_A, CLASS_INET, 0, Address(bytes))])
  }

  function FirstAnswer(registry: map<string, string>, q: Question, candidates: seq<string>): Outcome<seq<Record>> {
    if candidates == [] then Error
    else if candidates[0] in registry then GetMsg(registry[candidates[0]], q)
    else FirstAnswer(registry, q, candidates[1..])
  }

  function Solve(registry: map<string, string>, q: Question): Outcome<seq<Record>> {
    if q.name == "" then Panic
    else FirstAnswer(registry, q, AllHosts("." + q.name[..|q.name| - 1]))
  }

  /** The key a question is answered from. */
  function FoundKey(registry: map<string, string>, candidates: seq<string>): Option<string> {
    FirstRegistered(candidates, k => k in registry)
  }

  /** The search on the cache object: looking does not touch the order of use, answering does. */
  method SolveFromCache(c: LRUCache<string>, q: Question) returns (r: Outcome<seq<Record>>)
    requires c.Valid()
    modifies c`recency
    ensures c.Valid() && r == Solve(c.entries, q)
    ensures c.View() == if q.name == "" then old(c.View())
                        else match FoundKey(c.entries, AllHosts("." + q.name[..|q.name| - 1]))
                             case None => old(c.View())
                             case Some(key) => Touch(old(c.View()), key)
  {
    if q.name == "" {
      return Panic;
    }
    var hosts := GetAllHosts("." + q.name[..|q.name| - 1]);
    for k := 0 to |hosts|
      invariant c.Valid() && c.recency == old(c.recency)
      invariant FirstAnswer(c.entries, q, hosts[k..]) == FirstAnswer(c.entries, q, hosts)
      invariant FoundKey(c.entries, hosts[k..]) == FoundKey(c.entries, hosts)
    {
      assert hosts[k..][1..] == hosts[k + 1..];
      var found := c.ContainsKey(hosts[k]);
      if found {
        var ip := c.Get(hosts[k]);
        r := GetMsg(ip.value, q);
        return;
      }
    }
    r := Error;
  }

  lemma {:induction false} FirstAnswerIsLookup(registry: map<string, string>, q: Question, candidates: seq<string>)
    ensures var found := FirstRegistered(candidates, k => k in registry);
            match found
            case None => FirstAnswer(registry, q, candidates).Error?
            case Some(key) => key in registry && FirstAnswer(registry, q, candidates) == GetMsg(registry[key], q)
  {
    if candidates != [] {
      FirstAnswerIsLookup(registry, q, candidates[1..]);
    }
  }

  /**
   A question fails exactly when neither its name nor a dot suffix of it is registered; otherwise it is
   answered from the exact name, failing that from the longest registered suffix.
   */
  lemma SolveLaw(registry: map<string, string>, q: Question)
    requires q.name != ""
    ensures var name := q.name[..|q.name| - 1];
            && (Solve(registry, q).Error? <==>
                name !in registry && forall s :: IsDotSuffix("." + name, s) ==> s !in registry)
            && (!Solve(registry, q).Error? ==>
                exists key ::
                  && key in registry && Solve(registry, q) == GetMsg(registry[key], q)
                  && if name in registry then key == name
                     else IsDotSuffix("." + name, key) &&
                          forall s :: IsDotSuffix("." + name, s) && s in registry ==> s == key || |s| < |key|)
  {
    var name := q.name[..|q.name| - 1];
    var registered := k => k in registry;
    FirstAnswerIsLookup(registry, q, AllHosts("." + name));
    LookupLaw(name, registered);
    assert forall s :: registered(s) <==> s in registry;
    if Lookup(name, registered).Some? {
      var key := Lookup(name, registered).value;
      assert key in registry;
    }
  }

  /** A container registered with a printed address is answered with its four bytes, uncacheable. */
  lemma PrintedAddress(registry: map<string, string>, key: string, q: Question, ip: Quad)
    requires key in registry && registry[key] == ToIpString(ip)
    ensures GetMsg(registry[key], q) == Ok([Record(q.name, TYPE_A, CLASS_INET, 0, Address(ip))])
  {
    IpStringJoins(ip);
    SplitOfJoin(Decimals(ip), '.');
    ByteReads(ip[0]);
    ByteReads(ip[1]);
    ByteReads(ip[2]);
    ByteReads(ip[3]);
    assert [ip[0], ip[1], ip[2], ip[3]] == ip;
  }

  lemma ByteReads(n: uint8)
    ensures LowByte(AtoiLax(Decimal(n))) == n
  {
    AtoiInvertsDecimal(n);
    assert AtoiLax(Decimal(n)) == n;
  }

  /** Is this a number too large for an int? */
  predicate TooLarge(s: string) {
    var digits := if s != "" && s[0] == '+' then s[1..] else s;
    AllDigits(digits) && DigitsValue(digits) > MAX_INT
  }

  lemma LaxByte(piece: string)
    ensures LowByte(AtoiLax(piece)) ==
            match Atoi(piece)
            case Some(n) => n % 0x100
            case None => if TooLarge(piece) then 0xFF else 0
  {
  }

  /**
   Any registered text: fewer than four pieces between dots panic. Of the first four each gives the low byte of its
   number; a number too large gives 255, what is no number at all, or too small, gives 0.
   */
  lemma RegisteredText(parts: seq<string>, q: Question)
    requires parts != [] && forall i :: 0 <= i < |parts| ==> '.' !in parts[i]
    ensures var r := GetMsg(Join(parts, '.'), q);
            if |parts| < 4 then r.Panic?
            else
              && r.Ok? && |r.value| == 1 && r.value[0].data.Address?
              && r.value[0] == Record(q.name, TYPE_A, CLASS_INET, 0, r.value[0].data)
              && |r.value[0].data.ip| == 4
              && forall k :: 0 <= k < 4 ==>
                   r.value[0].data.ip[k] ==
                   match Atoi(parts[k])
                   case Some(n) => n % 0x100
                   case None => if TooLarge(parts[k]) then 0xFF else 0
  {
    SplitOfJoin(parts, '.');
    forall k | 0 <= k < 4 <= |parts|
      ensures LowByte(AtoiLax(parts[k])) == match Atoi(parts[k])
                                            case Some(n) => n % 0x100
                                            case None => if TooLarge(parts[k]) then 0xFF else 0
    {
      LaxByte(parts[k]);
    }
  }

  /** No answer from here is an alias. */
  lemma NoAlias(registry: map<string, string>, q: Question)
    requires Solve(registry, q).Ok?
    ensures var r := Solve(registry, q).value; |r| == 1 && r[0].class_ == CLASS_INET && r[0].name == q.name
  {
    SolveLaw(registry, q);
  }
}
