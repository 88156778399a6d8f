/**
 The rewrite on the bytes of the file and over whole runs: the set step repeats for the life
 of the process and the restore step ends it.
 */
module ResolvconfRuns {
  import opened Wrappers
  import opened Resolvconf
  import opened ResolvconfLaws

  // ---- Lines and bytes ----

  predicate NewlineFree(lines: seq<string>) {
    forall i :: 0 <= i < |lines| ==> '\n' !in lines[i]
  }

  predicate Terminated(data: string) {
    data == "" || data[|data| - 1] == '\n'
  }

  predicate EndsInCR(line: string) {
    line != "" && line[|line| - 1] == '\r'
  }

  predicate NoCR(lines: seq<string>) {
    forall i :: 0 <= i < |lines| ==> !EndsInCR(lines[i])
  }

  lemma {:induction false} LineEndOf(line: string, rest: string)
    requires '\n' !in line
    ensures LineEnd(line + "\n" + rest) == |line|
  {
    var data := line + "\n" + rest;
    if line != "" {
      LineEndOf(line[1..], rest);
      assert data[1..] == line[1..] + "\n" + rest;
    }
  }

  /** Joining and scanning again gives the lines back. */
  lemma {:induction false} RawOfJoin(lines: seq<string>)
    requires NewlineFree(lines)
    ensures RawLines(JoinLines(lines)) == lines
    ensures Terminated(JoinLines(lines))
  {
    if lines != [] {
      var rest := JoinLines(lines[1..]);
      var data := lines[0] + "\n" + rest;
      RawOfJoin(lines[1..]);
      LineEndOf(lines[0], rest);
      assert data[..|lines[0]|] == lines[0];
      assert data[|lines[0]| + 1..] == rest;
    }
  }

  /** Scanning and joining gives the bytes back exactly when the last line is terminated. */
  lemma {:induction false} JoinOfRaw(data: string)
    ensures NewlineFree(RawLines(data))
    ensures JoinLines(RawLines(data)) == data <==> Terminated(data)
    decreases |data|
  {
    if data != "" {
      var e := LineEnd(data);
      if e == |data| {
        assert data == data[..e];
        assert [data][1..] == [];
        assert |JoinLines([data])| > |data|;
      } else {
        var rest := data[e + 1..];
        JoinOfRaw(rest);
        assert RawLines(data)[1..] == RawLines(rest);
        assert data == data[..e] + "\n" + rest;
        assert JoinLines(RawLines(data)) == data[..e] + "\n" + JoinLines(RawLines(rest));
        assert JoinLines(RawLines(data))[e + 1..] == JoinLines(RawLines(rest));
      }
    }
  }

  lemma NoCRScan(lines: seq<string>)
    requires NoCR(lines)
    ensures DropCRs(lines) == lines
  {
  }

  lemma ScanNewlineFree(data: string)
    ensures NewlineFree(ScanLines(data))
  {
    JoinOfRaw(data);
  }

  lemma SetLineKeeps(ip: string, line: string)
    ensures '\n' !in ip && '\n' !in line ==> '\n' !in SetLine(ip, line)
    ensures EndsInCR(SetLine(ip, line)) ==> SetLine(ip, line) == line
    ensures EndsInCR(SetLine(ip, line)) <==> EndsInCR(line) && !GetDnsEntryType(line).Server?
  {
    assert GetDnsLine(ip)[|GetDnsLine(ip)| - 1] == 'y';
    assert WrapServer(line)[|WrapServer(line)| - 1] == 't';
    if GetDnsEntryType(line).Proxy? {
      assert line[|line| - |ENTRY_MARK|..][|ENTRY_MARK| - 1] == 'y';
    }
  }

  lemma SetNewlineFree(ip: string, lines: seq<string>)
    requires '\n' !in ip && NewlineFree(lines)
    ensures NewlineFree(SetLines(ip, lines))
  {
    forall i | 0 <= i < |lines|
      ensures '\n' !in SetLine(ip, lines[i])
    {
      SetLineKeeps(ip, lines[i]);
    }
  }

  /** The file after one set. */
  function SetFile(ip: string, data: string): string {
    JoinLines(SetLines(ip, ScanLines(data)))
  }

  lemma SetRewritesFile(ip: string, data: string)
    ensures RewriteFile(SetServer(ip), data) == Ok(SetFile(ip, data))
  {
    SetRewrites(ip, ScanLines(data));
  }

  lemma SetFileScan(ip: string, data: string)
    requires '\n' !in ip
    ensures ScanLines(SetFile(ip, data)) == DropCRs(SetLines(ip, ScanLines(data)))
  {
    ScanNewlineFree(data);
    SetNewlineFree(ip, ScanLines(data));
    RawOfJoin(SetLines(ip, ScanLines(data)));
  }

  // ---- Setting twice ----

  /** Lines the set handler passes on with a carriage return, which the next scan eats. */
  predicate ReturnKept(line: string) {
    EndsInCR(line) && !GetDnsEntryType(line).Server?
  }

  predicate ReturnsFree(lines: seq<string>) {
    forall i :: 0 <= i < |lines| ==> !ReturnKept(lines[i])
  }

  /** On bytes too, a set replaces an earlier set, exactly when no kept line ends in a carriage return. */
  lemma SetFileAbsorbs(a: string, b: string, data: string)
    requires '\n' !in a && '\n' !in b
    ensures RewriteFile(SetServer(b), SetFile(a, data)) == Ok(SetFile(b, data)) <==> ReturnsFree(ScanLines(data))
  {
    var lines := ScanLines(data);
    var again := DropCRs(SetLines(a, lines));
    SetRewritesFile(b, SetFile(a, data));
    SetFileScan(a, data);
    if ReturnsFree(lines) {
      SetKeepsReturnsOut(a, lines);
      SetAbsorbs(a, b, lines);
    } else {
      SetLosesReturn(a, b, lines);
      ScanNewlineFree(data);
      SetNewlineFree(b, lines);
      SetNewlineFree(a, lines);
      DropNewlineFree(SetLines(a, lines));
      SetNewlineFree(b, again);
      RawOfJoin(SetLines(b, again));
      RawOfJoin(SetLines(b, lines));
    }
  }

  lemma SetKeepsReturnsOut(ip: string, lines: seq<string>)
    requires ReturnsFree(lines)
    ensures DropCRs(SetLines(ip, lines)) == SetLines(ip, lines)
  {
    var once := SetLines(ip, lines);
    forall i | 0 <= i < |lines|
      ensures !EndsInCR(once[i])
    {
      assert !ReturnKept(lines[i]);
      SetLineKeeps(ip, lines[i]);
    }
    assert GetDnsLine(ip)[|GetDnsLine(ip)| - 1] == 'y';
    NoCRScan(once);
  }

  lemma SetLosesReturn(a: string, b: string, lines: seq<string>)
    requires !ReturnsFree(lines)
    ensures SetLines(b, DropCRs(SetLines(a, lines))) != SetLines(b, lines)
  {
    var i :| 0 <= i < |lines| && ReturnKept(lines[i]);
    var again := DropCRs(SetLines(a, lines));
    SetLineKeeps(a, lines[i]);
    assert SetLines(a, lines)[i] == lines[i];
    assert again[i] == DropCR(lines[i]);
    ReturnLost(b, lines[i]);
    assert SetLines(b, again)[i] == SetLine(b, again[i]);
    assert SetLines(b, lines)[i] == SetLine(b, lines[i]);
  }

  lemma DropNewlineFree(lines: seq<string>)
    requires NewlineFree(lines)
    ensures NewlineFree(DropCRs(lines))
  {
  }

  lemma ReturnLost(ip: string, line: string)
    requires ReturnKept(line)
    ensures SetLine(ip, DropCR(line)) != SetLine(ip, line)
  {
    SetLineKeeps(ip, line);
    SetLineKeeps(ip, DropCR(line));
    assert |DropCR(line)| < |line|;
  }

  // ---- Restoring after setting ----

  predicate CleanFile(data: string) {
    Terminated(data) && NoCR(RawLines(data)) && CleanLines(RawLines(data))
  }

  lemma CleanerShrinks(line: string)
    ensures var r := Process(Cleaner, line, GetDnsEntryType(line));
            r.Ok? && r.value.Some? ==> |r.value.value| <= |line|
    ensures var r := Process(Cleaner, line, GetDnsEntryType(line));
            r.Ok? && r.value.Some? && GetDnsEntryType(line).CommentedServer? ==> |r.value.value| < |line|
  {
  }

  /** One raw line through scan, set, scan and clean. */
  function Rescanned(ip: string, raw: string): Outcome<Option<string>> {
    var x := DropCR(SetLine(ip, DropCR(raw)));
    Process(Cleaner, x, GetDnsEntryType(x))
  }

  lemma RawLineWithReturn(ip: string, raw: string)
    requires EndsInCR(raw)
    ensures Rescanned(ip, raw) != Ok(Some(raw))
  {
    var line := DropCR(raw);
    assert |line| < |raw|;
    if GetDnsEntryType(line).Server? {
      WrapUnwrap(line);
      assert !EndsInCR(SetLine(ip, line)) by {
        SetLineKeeps(ip, line);
      }
      assert line[0] == line[..10][0] == 'n' && raw[0] == line[0];
      assert WrapServer(line)[0] == '#';
    } else if GetDnsEntryType(line).Proxy? {
      DnsLineIsProxy(ip);
      SetLineKeeps(ip, line);
    } else {
      CleanerShrinks(DropCR(line));
    }
  }

  lemma RawLineExact(ip: string, raw: string)
    ensures Rescanned(ip, raw) == Ok(Some(raw)) <==> !EndsInCR(raw) && CleanLine(raw)
  {
    if EndsInCR(raw) {
      RawLineWithReturn(ip, raw);
    } else {
      SetLineKeeps(ip, raw);
      CleanLineExact(ip, raw);
    }
  }

  /** The raw lines as the cleaner sees them after a set. */
  function SetAndRescan(ip: string, raw: seq<string>): (r: seq<string>)
    ensures |r| == |raw|
  {
    DropCRs(SetEach(ip, DropCRs(raw)))
  }

  lemma CleanerOnRescan(ip: string, raw: seq<string>)
    ensures RewriteBody(Cleaner, SetAndRescan(ip, raw)) == Ok(raw) <==> NoCR(raw) && CleanLines(raw)
  {
    var each := SetAndRescan(ip, raw);
    CleanerPointwise(each, raw);
    forall i | 0 <= i < |raw|
      ensures Process(Cleaner, each[i], GetDnsEntryType(each[i])) == Ok(Some(raw[i])) <==>
              !EndsInCR(raw[i]) && CleanLine(raw[i])
    {
      RawLineExact(ip, raw[i]);
    }
  }

  lemma RescanTail(ip: string, each: seq<string>, found: bool)
    ensures var tail := if found then [] else [GetDnsLine(ip)];
            DropCRs(each + tail) == DropCRs(each) + tail
  {
    assert GetDnsLine(ip)[|GetDnsLine(ip)| - 1] == 'y';
  }

  lemma CleanerOnSetFile(ip: string, data: string)
    requires '\n' !in ip
    ensures RewriteLines(Cleaner, ScanLines(SetFile(ip, data))) ==
            RewriteBody(Cleaner, SetAndRescan(ip, RawLines(data)))
  {
    var lines := ScanLines(data);
    var found := HasProxy(lines);
    SetFileScan(ip, data);
    RescanTail(ip, SetEach(ip, lines), found);
    CleanerSkipsTail(ip, DropCRs(SetEach(ip, lines)), found);
  }

  /** The cleaner gives back the bytes there were before a set, exactly for clean files. */
  lemma CleanerUndoesSetFile(ip: string, data: string)
    requires '\n' !in ip
    ensures RewriteFile(Cleaner, SetFile(ip, data)) == Ok(data) <==> CleanFile(data)
  {
    var raw := RawLines(data);
    CleanerOnSetFile(ip, data);
    CleanerOnRescan(ip, raw);
    JoinOfRaw(data);
    var body := RewriteBody(Cleaner, SetAndRescan(ip, raw));
    if body.Ok? {
      ScanNewlineFree(data);
      SetNewlineFree(ip, DropCRs(raw));
      assert NewlineFree(SetEach(ip, DropCRs(raw))) by {
        assert forall i :: 0 <= i < |raw| ==> SetEach(ip, DropCRs(raw))[i] == SetLines(ip, DropCRs(raw))[i];
      }
      DropNewlineFree(SetEach(ip, DropCRs(raw)));
      CleanerNewlineFree(SetAndRescan(ip, raw));
      RawOfJoin(body.value);
    }
  }

  lemma {:induction false} CleanerNewlineFree(lines: seq<string>)
    requires NewlineFree(lines)
    ensures RewriteBody(Cleaner, lines).Ok? ==> NewlineFree(RewriteBody(Cleaner, lines).value)
  {
    if lines != [] {
      CleanerNewlineFree(lines[1..]);
      assert '\n' !in lines[0];
    }
  }

  lemma TabbedServer()
    ensures GetDnsEntryType("nameserver\t8.8.8.8").Server? && !Undoable("nameserver\t8.8.8.8")
  {
    var line := "nameserver\t8.8.8.8";
    assert line[..10] == "nameserver" && line[..11][10] == '\t';
    assert line[..1] == "n" && line[..13][0] == 'n';
    assert |ENTRY_MARK| == 11 && line[|line| - 11..][0] == 'v';
  }

  /** A server line with a tab is commented out but never back in. */
  lemma TabbedServerIsLost(ip: string)
    requires '\n' !in ip
    ensures var data := "nameserver\t8.8.8.8" + "\n"; RewriteFile(Cleaner, SetFile(ip, data)) != Ok(data)
  {
    var line := "nameserver\t8.8.8.8";
    var data := line + "\n";
    TabbedServer();
    CleanerUndoesSetFile(ip, data);
    LineEndOf(line, "");
    assert data + "" == data && data[..|line|] == line;
    assert RawLines(data)[0] == line;
    assert !CleanLine(line);
  }

  lemma CleanerKeepsCleanFile(data: string)
    requires CleanFile(data)
    ensures RewriteFile(Cleaner, data) == Ok(data)
  {
    NoCRScan(RawLines(data));
    JoinOfRaw(data);
    CleanerKeepsClean(RawLines(data));
    assert RawLines(data) + [] == RawLines(data);
  }

  // ---- Whole runs ----

  datatype Step = Set(ip: string) | Restore

  function HandlerOf(step: Step): Handler {
    match step case Set(ip) => SetServer(ip) case Restore => Cleaner
  }

  function Run(data: string, word: seq<Step>): Outcome<string> {
    if word == [] then Ok(data)
    else
      match Run(data, word[..|word| - 1])
      case Ok(d) => RewriteFile(HandlerOf(word[|word| - 1]), d)
      case _ => Panic
  }

  predicate GoodIps(word: seq<Step>) {
    forall i :: 0 <= i < |word| && word[i].Set? ==> '\n' !in word[i].ip
  }

  /** The law: only the last step counts. */
  function Expected(data: string, word: seq<Step>): string {
    if word == [] || word[|word| - 1].Restore? then data else SetFile(word[|word| - 1].ip, data)
  }

  lemma {:induction false} CleanRun(data: string, word: seq<Step>)
    requires CleanFile(data) && GoodIps(word)
    ensures Run(data, word) == Ok(Expected(data, word))
  {
    if word != [] {
      var before, last := word[..|word| - 1], word[|word| - 1];
      CleanRun(data, before);
      if before == [] || before[|before| - 1].Restore? {
        match last {
          case Set(ip) => SetRewritesFile(ip, data);
          case Restore => CleanerKeepsCleanFile(data);
        }
      } else {
        var a := before[|before| - 1].ip;
        assert before[|before| - 1] == word[|before| - 1];
        match last {
          case Set(b) =>
            NoCRScan(RawLines(data));
            assert ReturnsFree(ScanLines(data));
            SetFileAbsorbs(a, b, data);
          case Restore => CleanerUndoesSetFile(a, data);
        }
      }
    }
  }

  /** The law holds of every run exactly for clean files. */
  lemma RunLaw(data: string)
    ensures (forall word :: GoodIps(word) ==> Run(data, word) == Ok(Expected(data, word))) <==> CleanFile(data)
  {
    if CleanFile(data) {
      forall word | GoodIps(word)
        ensures Run(data, word) == Ok(Expected(data, word))
      {
        CleanRun(data, word);
      }
    } else {
      var word := [Set(""), Restore];
      assert word[..1] == [Set("")] && word[..1][..0] == [];
      assert Run(data, []) == Ok(data);
      SetRewritesFile("", data);
      assert Run(data, word[..1]) == Ok(SetFile("", data));
      CleanerUndoesSetFile("", data);
      assert Run(data, word) != Ok(data);
      assert GoodIps(word) && Expected(data, word) == data;
    }
  }
}
