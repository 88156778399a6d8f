/** Remote server addresses: the `ip:port` printer and the pattern that reads it back. */
module DnsServer {
  import opened Wrappers
  import opened GoStrings
  import opened Dns
  import opened IpUtils
  import opened Outcomes

  type int64 = n: int | MIN_INT <= n <= MAX_INT

  datatype DNSServer = DNSServer(ip: string, port: int64)

  function GetAddress(s: DNSServer): string {
    s.ip + ":" + PrintInt(s.port)
  }

  function GetIpArray(s: DNSServer): Outcome<Quad> {
    ParseQuad(s.ip)
  }

  // ---- The address pattern (\d+\.\d+\.\d+\.\d+):?(\d*) ----

  /** Four non-empty groups of digits between dots. */
  predicate IsQuad(s: string) {
    IsGroups(s, 4)
  }

  predicate IsGroups(s: string, k: nat) {
    var parts := Split(s, '.');
    |parts| == k && forall i :: 0 <= i < k ==> parts[i] != "" && AllDigits(parts[i])
  }

  function TakeDigits(s: string): (n: nat)
    ensures n <= |s| && AllDigits(s[..n])
    ensures n < |s| ==> !IsDigit(s[n])
  {
    if s == "" || !IsDigit(s[0]) then 0
    else
      var n := 1 + TakeDigits(s[1..]);
      assert forall i :: 1 <= i < n ==> s[i] == s[1..][..n - 1][i - 1];
      n
  }

  /** Greedy match of `k` groups at the start of `s`: how much it takes. */
  function MatchGroups(s: string, k: nat): (r: Option<nat>)
    requires k >= 1
    ensures r.Some? ==> 0 < r.value <= |s|
  {
    var n := TakeDigits(s);
    if n == 0 then None
    else if k == 1 then Some(n)
    else if n == |s| || s[n] != '.' then None
    else
      match MatchGroups(s[n + 1..], k - 1)
      case None => None
      case Some(m) => Some(n + 1 + m)
  }

  /** Leftmost match: the address and the port digits behind an optional colon. */
  function FindAddress(s: string): Option<(string, string)>
    decreases |s|
  {
    match MatchGroups(s, 4)
    case Some(n) =>
      var rest := s[n..];
      var afterColon := if rest != "" && rest[0] == ':' then rest[1..] else rest;
      Some((s[..n], afterColon[..TakeDigits(afterColon)]))
    case None => if s == "" then None else FindAddress(s[1..])
  }

  function ParsePort(s: string): int64 {
    match Atoi(s)
    case None => 53
    case Some(n) => n
  }

  /** A text without an address in it panics. */
  function ToDnsServer(dnsAddress: string): Outcome<DNSServer> {
    match FindAddress(dnsAddress)
    case None => Panic
    case Some((ip, port)) => Ok(DNSServer(ip, ParsePort(port)))
  }

  // ---- List conversions ----

  function ServerOfBytes(ip: Quad): Outcome<DNSServer> {
    ToDnsServer(ToIpString(ip))
  }

  method ToIpsByteArray(servers: seq<DNSServer>) returns (r: Outcome<seq<Quad>>)
    ensures r == MapAll(servers, GetIpArray)
  {
    r := FillAll(servers, GetIpArray, ZERO_IP);
  }

  method ToIpsStringArray(servers: seq<DNSServer>) returns (r: seq<string>)
    ensures r == MapSeq(servers, GetAddress)
  {
    r := FillEach(servers, GetAddress, "");
  }

  method ByteArrayToDnsServer(byteArrayServers: seq<Quad>) returns (r: Outcome<seq<DNSServer>>)
    ensures r == MapAll(byteArrayServers, ServerOfBytes)
  {
    r := FillAll(byteArrayServers, ServerOfBytes, DNSServer("", 0));
  }

  method StringArrayToDnsServer(stringArrayServers: seq<string>) returns (r: Outcome<seq<DNSServer>>)
    ensures r == MapAll(stringArrayServers, ToDnsServer)
  {
    r := FillAll(stringArrayServers, ToDnsServer, DNSServer("", 0));
  }

  // ---- What the greedy match is ----

  lemma {:induction false} TakeDigitsAt(a: string, rest: string)
    requires AllDigits(a) && (rest == "" || !IsDigit(rest[0]))
    ensures TakeDigits(a + rest) == |a|
  {
    if a == "" {
      assert a + rest == rest;
    } else {
      assert IsDigit(a[0]) && (a + rest)[1..] == a[1..] + rest;
      TakeDigitsAt(a[1..], rest);
    }
  }

  predicate Groups(parts: seq<string>) {
    forall i :: 0 <= i < |parts| ==> parts[i] != "" && AllDigits(parts[i])
  }

  lemma MatchStep(head: string, tail: string, k: nat)
    requires head != "" && AllDigits(head) && k >= 2
    ensures MatchGroups(head + "." + tail, k) ==
            match MatchGroups(tail, k - 1) case None => None case Some(m) => Some(|head| + 1 + m)
  {
    var s := head + ("." + tail);
    TakeDigitsAt(head, "." + tail);
    assert s == head + "." + tail && s[|head|] == '.' && s[|head| + 1..] == tail;
  }

  /** Groups followed by no further digit are matched as a whole. */
  lemma {:induction false} MatchesJoined(parts: seq<string>, rest: string)
    requires parts != [] && Groups(parts) && (rest == "" || !IsDigit(rest[0]))
    ensures MatchGroups(Join(parts, '.') + rest, |parts|) == Some(|Join(parts, '.')|)
  {
    if |parts| == 1 {
      TakeDigitsAt(parts[0], rest);
    } else {
      var head, others := parts[0], parts[1..];
      assert parts == [head] + others && Groups(others);
      MatchesJoined(others, rest);
      JoinMore(head, others);
      MatchJoinedStep(head, Join(others, '.'), rest, |parts|);
    }
  }

  lemma MatchJoinedStep(head: string, tail: string, rest: string, k: nat)
    requires head != "" && AllDigits(head) && k >= 2 && MatchGroups(tail + rest, k - 1) == Some(|tail|)
    ensures MatchGroups(head + "." + tail + rest, k) == Some(|head + "." + tail|)
  {
    Associate(head, tail, rest);
    MatchStep(head, tail + rest, k);
  }

  lemma Associate(head: string, tail: string, rest: string)
    ensures head + "." + tail + rest == head + "." + (tail + rest)
  {
  }

  lemma JoinMore(head: string, others: seq<string>)
    requires others != []
    ensures Join([head] + others, '.') == head + "." + Join(others, '.')
  {
    assert ([head] + others)[1..] == others;
  }

  /** What is matched is made of groups. */
  lemma {:induction false} MatchedIsGroups(s: string, k: nat) returns (parts: seq<string>)
    requires k >= 1 && MatchGroups(s, k).Some?
    ensures |parts| == k && Groups(parts)
    ensures s[..MatchGroups(s, k).value] == Join(parts, '.')
  {
    var n := TakeDigits(s);
    var head := s[..n];
    if k == 1 {
      parts := [head];
    } else {
      var tail := s[n + 1..];
      var m := MatchGroups(tail, k - 1).value;
      var others := MatchedIsGroups(tail, k - 1);
      parts := [head] + others;
      JoinMore(head, others);
      Regroup(s, n, m);
    }
  }

  lemma Regroup(s: string, n: nat, m: nat)
    requires n + 1 + m <= |s| && s[n] == '.'
    ensures s[..n + 1 + m] == s[..n] + "." + s[n + 1..][..m]
  {
  }

  lemma GroupsSplit(parts: seq<string>)
    requires parts != [] && Groups(parts)
    ensures Split(Join(parts, '.'), '.') == parts && IsGroups(Join(parts, '.'), |parts|)
  {
    SplitOfJoin(parts, '.');
  }

  /** On a whole text: the match takes all of it exactly when it is a quad. */
  lemma QuadMatch(s: string, rest: string)
    requires IsQuad(s) && (rest == "" || !IsDigit(rest[0]))
    ensures MatchGroups(s + rest, 4) == Some(|s|)
  {
    JoinOfSplit(s, '.');
    MatchesJoined(Split(s, '.'), rest);
  }

  /** Whatever is found has a quad for its address and digits for its port. */
  lemma {:induction false} FoundIsQuad(s: string)
    requires FindAddress(s).Some?
    ensures IsQuad(FindAddress(s).value.0) && AllDigits(FindAddress(s).value.1)
    decreases |s|
  {
    if MatchGroups(s, 4).Some? {
      var parts := MatchedIsGroups(s, 4);
      GroupsSplit(parts);
    } else {
      FoundIsQuad(s[1..]);
    }
  }

  predicate HasQuad(s: string) {
    exists i, j :: 0 <= i <= j <= |s| && IsQuad(s[i..j])
  }

  lemma LongerMatches(parts: seq<string>, more: string, beyond: string)
    requires |parts| == 4 && Groups(parts) && AllDigits(more) && (beyond == "" || !IsDigit(beyond[0]))
    ensures MatchGroups(Join(parts, '.') + more + beyond, 4).Some?
  {
    var longer := parts[..3] + [parts[3] + more];
    JoinLonger(parts, more);
    MatchesJoined(longer, beyond);
  }

  /** A quad at the start is always matched, perhaps with more digits behind it. */
  lemma QuadPrefixMatches(s: string, j: nat)
    requires j <= |s| && IsQuad(s[0..j])
    ensures MatchGroups(s, 4).Some?
  {
    var rest := s[j..];
    var n := TakeDigits(rest);
    JoinOfSplit(s[0..j], '.');
    LongerMatches(Split(s[0..j], '.'), rest[..n], rest[n..]);
    ThreeParts(s, j, n);
  }

  lemma ThreeParts(s: string, j: nat, n: nat)
    requires j + n <= |s|
    ensures s[0..j] + s[j..][..n] + s[j..][n..] == s
  {
  }

  lemma {:induction false} JoinLonger(parts: seq<string>, more: string)
    requires parts != []
    ensures Join(parts[..|parts| - 1] + [parts[|parts| - 1] + more], '.') == Join(parts, '.') + more
  {
    var longer := parts[..|parts| - 1] + [parts[|parts| - 1] + more];
    if |parts| > 1 {
      JoinLonger(parts[1..], more);
      assert longer[1..] == parts[1..][..|parts| - 2] + [parts[1..][|parts| - 2] + more];
      assert longer[0] == parts[0];
    }
  }

  /** Where no match starts at the front, quads occur further on only. */
  lemma QuadLater(s: string)
    requires s != "" && MatchGroups(s, 4).None?
    ensures HasQuad(s) <==> HasQuad(s[1..])
  {
    var t := s[1..];
    if HasQuad(s) {
      var i, j :| 0 <= i <= j <= |s| && IsQuad(s[i..j]);
      if i == 0 {
        QuadPrefixMatches(s, j);
      }
      assert t[i - 1..j - 1] == s[i..j];
    }
    if HasQuad(t) {
      var i, j :| 0 <= i <= j <= |t| && IsQuad(t[i..j]);
      assert s[i + 1..j + 1] == t[i..j];
    }
  }

  lemma EmptyHasNoQuad()
    ensures !HasQuad("")
  {
    forall i, j | 0 <= i <= j <= 0
      ensures !IsQuad(""[i..j])
    {
      assert ""[i..j] == "";
    }
  }

  /** Something is found exactly when a quad occurs somewhere. */
  lemma {:induction false} FoundWhenQuadOccurs(s: string)
    ensures FindAddress(s).Some? <==> HasQuad(s)
    decreases |s|
  {
    if MatchGroups(s, 4).Some? {
      var parts := MatchedIsGroups(s, 4);
      GroupsSplit(parts);
      assert s[0..MatchGroups(s, 4).value] == s[..MatchGroups(s, 4).value];
    } else if s == "" {
      EmptyHasNoQuad();
    } else {
      QuadLater(s);
      FoundWhenQuadOccurs(s[1..]);
    }
  }

  // ---- Round trips ----

  /** A server printed as `ip:port` is read back exactly when its address is a quad and its port is not negative. */
  lemma AddressRoundTrip(s: DNSServer)
    ensures ToDnsServer(GetAddress(s)) == Ok(s) <==> IsQuad(s.ip) && s.port >= 0
  {
    var text := GetAddress(s);
    if IsQuad(s.ip) && s.port >= 0 {
      var port := Decimal(s.port);
      assert text == s.ip + (":" + port);
      QuadMatch(s.ip, ":" + port);
      assert text[..|s.ip|] == s.ip && text[|s.ip|..] == ":" + port;
      assert (":" + port)[1..] == port;
      assert port[..|port|] == port;
      TakeDigitsAt(port, "");
      assert port + "" == port;
      assert FindAddress(text) == Some((s.ip, port));
      AtoiInvertsDecimal(s.port);
    } else if FindAddress(text).Some? {
      FoundIsQuad(text);
    }
  }

  /** A bare quad is read with the default port. */
  lemma QuadRoundTrip(ip: string)
    requires IsQuad(ip)
    ensures ToDnsServer(ip) == Ok(DNSServer(ip, 53))
  {
    assert ip + "" == ip;
    QuadMatch(ip, "");
    assert ip[..|ip|] == ip && ip[|ip|..] == "";
    assert FindAddress(ip) == Some((ip, ""));
  }

  /** Whatever was read is printed in a form that reads back the same: a missing port has become 53. */
  lemma ReadPrintRead(text: string)
    requires ToDnsServer(text).Ok?
    ensures var s := ToDnsServer(text).value;
            IsQuad(s.ip) && s.port >= 0 && ToDnsServer(GetAddress(s)) == Ok(s)
  {
    FoundIsQuad(text);
    AddressRoundTrip(ToDnsServer(text).value);
  }

  predicate QuadAt(s: string, i: nat) {
    exists j :: i <= j <= |s| && IsQuad(s[i..j])
  }

  lemma MatchIsQuad(s: string)
    ensures MatchGroups(s, 4).Some? ==> QuadAt(s, 0)
  {
    if MatchGroups(s, 4).Some? {
      var parts := MatchedIsGroups(s, 4);
      GroupsSplit(parts);
      assert s[0..MatchGroups(s, 4).value] == s[..MatchGroups(s, 4).value];
    }
  }

  lemma QuadAtRest(s: string, i: nat)
    requires s != ""
    ensures QuadAt(s[1..], i) ==> QuadAt(s, i + 1)
  {
    if j :| i <= j <= |s[1..]| && IsQuad(s[1..][i..j]) {
      assert s[i + 1..j + 1] == s[1..][i..j];
    }
  }

  /** The leftmost address is the one found. */
  lemma {:induction false} FoundLeftmost(before: string, text: string)
    requires forall i :: 0 <= i < |before| ==> !QuadAt(before + text, i)
    ensures FindAddress(before + text) == FindAddress(text)
  {
    var s := before + text;
    if before == "" {
      assert s == text;
    } else {
      MatchIsQuad(s);
      assert s[1..] == before[1..] + text;
      forall i | 0 <= i < |before[1..]|
        ensures !QuadAt(before[1..] + text, i)
      {
        QuadAtRest(s, i);
      }
      FoundLeftmost(before[1..], text);
    }
  }

  lemma FoundInFront(ip: string, port: string, after: string)
    requires IsQuad(ip) && AllDigits(port) && (after == "" || !IsDigit(after[0]))
    ensures FindAddress(ip + (":" + (port + after))) == Some((ip, port))
  {
    var rest := ":" + (port + after);
    QuadMatch(ip, rest);
    assert (ip + rest)[..|ip|] == ip && (ip + rest)[|ip|..] == rest && rest[1..] == port + after;
    TakeDigitsAt(port, after);
  }

  /**
   What a server text is read as: the leftmost address in it, and the digits behind the colon as its port, unless
   there are none or too many for an int.
   */
  lemma ServerText(before: string, ip: string, port: string, after: string)
    requires IsQuad(ip) && AllDigits(port) && (after == "" || !IsDigit(after[0]))
    requires forall i :: 0 <= i < |before| ==> !QuadAt(before + (ip + (":" + (port + after))), i)
    ensures ToDnsServer(before + (ip + (":" + (port + after)))) ==
            Ok(DNSServer(ip, if port == "" || DigitsValue(port) > MAX_INT then 53 else DigitsValue(port)))
  {
    FoundLeftmost(before, ip + (":" + (port + after)));
    FoundInFront(ip, port, after);
  }

  lemma IpStringIsQuad(ip: seq<uint8>)
    requires |ip| == 4
    ensures IsQuad(ToIpString(ip))
  {
    IpStringJoins(ip);
    GroupsSplit(Decimals(ip));
  }
}
