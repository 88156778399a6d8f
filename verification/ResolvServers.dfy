/**
 What the rewritten file means to whoever resolves names with it: the servers it lists. A resolver takes a line that
 starts with the keyword, skips blanks and tabs, and reads up to the next one.
 */
module ResolvServers {
  import opened Wrappers
  import opened Resolvconf
  import opened ResolvconfLaws
  import opened ResolvconfRuns

  predicate IsBlank(c: char) {
    c == ' ' || c == '\t'
  }

  function SkipBlanks(s: string): string {
    if s != "" && IsBlank(s[0]) then SkipBlanks(s[1..]) else s
  }

  function FirstWord(s: string): string {
    if s == "" || IsBlank(s[0]) then "" else [s[0]] + FirstWord(s[1..])
  }

  /** The server a line names, if it names one. */
  function ServerOf(line: string): Option<string> {
    if |line| > 10 && line[..10] == "nameserver" && IsBlank(line[10]) && SkipBlanks(line[10..]) != ""
    then Some(FirstWord(SkipBlanks(line[10..])))
    else None
  }

  function Servers(lines: seq<string>): seq<string> {
    if lines == [] then []
    else
      match ServerOf(lines[0])
      case Some(server) => [server] + Servers(lines[1..])
      case None => Servers(lines[1..])
  }

  function ServersOf(data: string): seq<string> {
    Servers(ScanLines(data))
  }

  /** An address a resolver reads as a whole. */
  predicate IsWord(ip: string) {
    ip != "" && forall i :: 0 <= i < |ip| ==> !IsBlank(ip[i])
  }

  /** One server at least, and no other one. */
  predicate Only(servers: seq<string>, ip: string) {
    servers != [] && forall i :: 0 <= i < |servers| ==> servers[i] == ip
  }

  // ---- Own entries ----

  lemma {:induction false} FirstWordIs(word: string, rest: string)
    requires (forall i :: 0 <= i < |word| ==> !IsBlank(word[i])) && rest != "" && IsBlank(rest[0])
    ensures FirstWord(word + rest) == word
  {
    if word == "" {
      assert word + rest == rest;
    } else {
      assert (word + rest)[1..] == word[1..] + rest;
      FirstWordIs(word[1..], rest);
    }
  }

  lemma {:induction false} FirstWordIsWord(s: string)
    ensures forall i :: 0 <= i < |FirstWord(s)| ==> !IsBlank(FirstWord(s)[i])
    ensures s != "" && !IsBlank(s[0]) ==> IsWord(FirstWord(s))
  {
    if s != "" && !IsBlank(s[0]) {
      FirstWordIsWord(s[1..]);
    }
  }

  lemma {:induction false} SkipBlanksStops(s: string)
    ensures SkipBlanks(s) != "" ==> !IsBlank(SkipBlanks(s)[0])
    ensures |SkipBlanks(s)| <= |s|
    ensures (exists i :: 0 <= i < |s| && !IsBlank(s[i])) ==> SkipBlanks(s) != ""
  {
    if s != "" && IsBlank(s[0]) {
      SkipBlanksStops(s[1..]);
      if i :| 0 <= i < |s| && !IsBlank(s[i]) {
        assert !IsBlank(s[1..][i - 1]);
      }
    }
  }

  lemma OwnEntry(ip: string)
    ensures var line := GetDnsLine(ip);
            && |line| > 10 && line[..10] == "nameserver" && line[10] == ' '
            && line[10..] == " " + (ip + " # dps-entry")
  {
    assert GetDnsLine(ip) == "nameserver" + (" " + (ip + " # dps-entry"));
  }

  /** An own entry names some server, and names its address exactly when that is a word. */
  lemma OwnServer(ip: string)
    ensures ServerOf(GetDnsLine(ip)).Some?
    ensures ServerOf(GetDnsLine(ip)) == Some(ip) <==> IsWord(ip)
  {
    var tail := ip + " # dps-entry";
    OwnEntry(ip);
    assert (" " + tail)[1..] == tail;
    assert tail[|ip| + 1] == '#';
    SkipBlanksStops(tail);
    assert SkipBlanks(" " + tail) == SkipBlanks(tail) != "";
    if IsWord(ip) {
      assert tail[0] == ip[0];
      FirstWordIs(ip, " # dps-entry");
    } else {
      FirstWordIsWord(SkipBlanks(tail));
    }
  }

  /** A line with the keyword, hence one that names a server, is a server line or an own entry. */
  lemma KeywordLine(line: string)
    requires |line| >= 10 && line[..10] == "nameserver"
    ensures GetDnsEntryType(line).Server? || GetDnsEntryType(line).Proxy?
  {
    assert line[0] == line[..10][0] == 'n';
    assert line[..1] == "n";
    assert |line| >= 13 ==> line[..13][0] == 'n';
  }

  lemma {:induction false} ServersAre(lines: seq<string>, ip: string)
    requires forall i :: 0 <= i < |lines| ==> ServerOf(lines[i]).Some? ==> ServerOf(lines[i]) == Some(ip)
    ensures forall i :: 0 <= i < |Servers(lines)| ==> Servers(lines)[i] == ip
  {
    if lines != [] {
      ServersAre(lines[1..], ip);
    }
  }

  lemma {:induction false} ServerListed(lines: seq<string>, k: nat)
    requires k < |lines| && ServerOf(lines[k]).Some?
    ensures ServerOf(lines[k]).value in Servers(lines)
  {
    if k > 0 {
      ServerListed(lines[1..], k - 1);
    }
  }

  // ---- Any set, on any lines and any bytes ----

  /** Dropping a trailing carriage return makes no server out of a line that was none, and leaves own entries alone. */
  lemma DroppedStays(line: string)
    ensures ServerOf(DropCR(line)).Some? ==> GetDnsEntryType(line).Server? || GetDnsEntryType(line).Proxy?
    ensures GetDnsEntryType(line).Proxy? ==> DropCR(line) == line
  {
    if ServerOf(DropCR(line)).Some? {
      assert line[..10] == DropCR(line)[..10];
      KeywordLine(line);
    }
    if GetDnsEntryType(line).Proxy? {
      assert line[|line| - |ENTRY_MARK|..][|ENTRY_MARK| - 1] == 'y';
    }
  }

  /** After any set, each line that names a server is an own entry with the address, scanned again or not. */
  lemma SetLineServes(ip: string, lines: seq<string>, i: nat)
    requires i < |SetLines(ip, lines)|
    ensures var line := SetLines(ip, lines)[i];
            && (ServerOf(line).Some? ==> line == GetDnsLine(ip))
            && (ServerOf(DropCR(line)).Some? ==> DropCR(line) == line == GetDnsLine(ip))
  {
    var line := SetLines(ip, lines)[i];
    SetShape(ip, lines);
    if ServerOf(line).Some? {
      KeywordLine(line);
    }
    DroppedStays(line);
  }

  lemma OwnLineListed(ip: string, lines: seq<string>) returns (k: nat)
    ensures k < |SetLines(ip, lines)| && SetLines(ip, lines)[k] == GetDnsLine(ip)
  {
    SetShape(ip, lines);
    k :| k < |SetLines(ip, lines)| && GetDnsEntryType(SetLines(ip, lines)[k]).Proxy?;
  }

  /** After a set, on any lines: the resolver reads the given address and no other, exactly when it is a word. */
  lemma SetServes(ip: string, lines: seq<string>)
    ensures Only(Servers(SetLines(ip, lines)), ip) <==> IsWord(ip)
  {
    var after := SetLines(ip, lines);
    var k := OwnLineListed(ip, lines);
    OwnServer(ip);
    ServerListed(after, k);
    if IsWord(ip) {
      forall i | 0 <= i < |after| && ServerOf(after[i]).Some?
        ensures ServerOf(after[i]) == Some(ip)
      {
        SetLineServes(ip, lines, i);
      }
      ServersAre(after, ip);
    }
  }

  /** The same on any bytes, as the next reader of the file scans them. */
  lemma SetFileServes(ip: string, data: string)
    requires '\n' !in ip
    ensures Only(ServersOf(SetFile(ip, data)), ip) <==> IsWord(ip)
  {
    var lines := ScanLines(data);
    var written := SetLines(ip, lines);
    var read := DropCRs(written);
    SetFileScan(ip, data);
    var k := OwnLineListed(ip, lines);
    OwnServer(ip);
    DroppedStays(written[k]);
    DnsLineIsProxy(ip);
    ServerListed(read, k);
    if IsWord(ip) {
      forall i | 0 <= i < |read| && ServerOf(read[i]).Some?
        ensures ServerOf(read[i]) == Some(ip)
      {
        SetLineServes(ip, lines, i);
      }
      ServersAre(read, ip);
    }
  }

  /** After any run on a clean file the servers are those of the last set, or again the file's own. */
  lemma RunServes(data: string, word: seq<Step>)
    requires CleanFile(data) && GoodIps(word)
    ensures Run(data, word).Ok?
    ensures var servers := ServersOf(Run(data, word).value);
            if word != [] && word[|word| - 1].Set?
            then Only(servers, word[|word| - 1].ip) <==> IsWord(word[|word| - 1].ip)
            else servers == ServersOf(data)
  {
    CleanRun(data, word);
    if word != [] && word[|word| - 1].Set? {
      SetFileServes(word[|word| - 1].ip, data);
    }
  }

  /** On the bytes written by the rewrite itself: whatever the file held, it then names the given address only. */
  lemma RewriteServes(ip: string, data: string)
    requires '\n' !in ip && IsWord(ip)
    ensures RewriteFile(SetServer(ip), data).Ok?
    ensures Only(ServersOf(RewriteFile(SetServer(ip), data).value), ip)
  {
    SetRewritesFile(ip, data);
    SetFileServes(ip, data);
  }
}
