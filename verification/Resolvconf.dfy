/**
 Rewriting /etc/resolv.conf: the line classifier, the two handlers, the line scanner and
 the loop that drives them.
 */
module Resolvconf {
  import opened Wrappers
  import opened GoStrings

  const ENTRY_MARK := "# dps-entry"
  const COMMENT_MARK := "# dps-comment"
  // What the set handler appends and the cleaner looks for.
  const CUT_MARK := " # dps-comment"

  // ---- Classifying a line ----

  datatype DnsEntry = Comment | CommentedServer | Server | Proxy | Search | Else

  function GetDnsLine(serverIP: string): string {
    "nameserver " + serverIP + " # dps-entry"
  }

  function GetDnsEntryType(line: string): DnsEntry {
    if HasSuffix(line, ENTRY_MARK) then Proxy
    else if HasPrefix(line, "# nameserver ") && HasSuffix(line, COMMENT_MARK) then CommentedServer
    else if HasPrefix(line, "#") then Comment
    else if HasPrefix(line, "nameserver") then Server
    else if HasPrefix(line, "search") then Search
    else Else
  }

  // ---- The handlers ----

  datatype Handler = SetServer(serverIP: string) | Cleaner

  function WrapServer(line: string): string {
    "# " + line + " # dps-comment"
  }

  /** One line: `Ok(None)` drops it. The cleaner panics when it slices up to a missing marker. */
  function Process(hd: Handler, line: string, entryType: DnsEntry): Outcome<Option<string>> {
    match (hd, entryType)
    case (SetServer(ip), Proxy) => Ok(Some(GetDnsLine(ip)))
    case (SetServer(_), Server) => Ok(Some(WrapServer(line)))
    case (SetServer(_), _) => Ok(Some(line))
    case (Cleaner, Proxy) => Ok(None)
    case (Cleaner, CommentedServer) =>
      var end := Index(line, CUT_MARK);
      if 2 <= end <= |line| then Ok(Some(line[2..end])) else Panic
    case (Cleaner, _) => Ok(Some(line))
  }

  function AfterProcess(hd: Handler, hasContent: bool, foundDnsProxy: bool): Option<string> {
    match hd
    case SetServer(ip) => if !hasContent || !foundDnsProxy then Some(GetDnsLine(ip)) else None
    case Cleaner => None
  }

  // ---- Lines of a file ----

  /** The scanner drops one trailing carriage return. */
  function DropCR(line: string): string {
    if line != "" && line[|line| - 1] == '\r' then line[..|line| - 1] else line
  }

  function LineEnd(data: string): (e: nat)
    ensures e <= |data|
    ensures '\n' !in data[..e]
    ensures e < |data| ==> data[e] == '\n'
  {
    if data == "" || data[0] == '\n' then 0
    else
      assert forall e: nat :: e <= |data[1..]| ==> data[..e + 1] == [data[0]] + data[1..][..e];
      1 + LineEnd(data[1..])
  }

  /** The newline-separated pieces of a file; a last piece without newline counts unless it is empty. */
  function RawLines(data: string): seq<string> {
    if data == "" then []
    else
      var e := LineEnd(data);
      if e == |data| then [data] else [data[..e]] + RawLines(data[e + 1..])
  }

  function DropCRs(lines: seq<string>): (r: seq<string>)
    ensures |r| == |lines|
    ensures forall i :: 0 <= i < |lines| ==> r[i] == DropCR(lines[i])
  {
    if lines == [] then [] else [DropCR(lines[0])] + DropCRs(lines[1..])
  }

  function ScanLines(data: string): seq<string> {
    DropCRs(RawLines(data))
  }

  function JoinLines(lines: seq<string>): string {
    if lines == [] then "" else lines[0] + "\n" + JoinLines(lines[1..])
  }

  // ---- The whole rewrite ----

  predicate HasProxy(lines: seq<string>) {
    exists i :: 0 <= i < |lines| && GetDnsEntryType(lines[i]).Proxy?
  }

  function Prepend(o: Option<string>, rest: seq<string>): seq<string> {
    match o case None => rest case Some(l) => [l] + rest
  }

  function RewriteBody(hd: Handler, lines: seq<string>): Outcome<seq<string>> {
    if lines == [] then Ok([])
    else
      match (Process(hd, lines[0], GetDnsEntryType(lines[0])), RewriteBody(hd, lines[1..]))
      case (Ok(o), Ok(rest)) => Ok(Prepend(o, rest))
      case _ => Panic
  }

  function RewriteLines(hd: Handler, lines: seq<string>): Outcome<seq<string>> {
    match RewriteBody(hd, lines)
    case Ok(body) => Ok(body + Prepend(AfterProcess(hd, lines != [], HasProxy(lines)), []))
    case _ => Panic
  }

  /** New file content; a panic happens before anything is written. */
  function RewriteFile(hd: Handler, data: string): Outcome<string> {
    match RewriteLines(hd, ScanLines(data))
    case Ok(lines) => Ok(JoinLines(lines))
    case _ => Panic
  }

  // ---- The loop that does it ----

  lemma PrependAppend(o: Option<string>, x: seq<string>, y: seq<string>)
    ensures Prepend(o, x) + y == Prepend(o, x + y)
  {
  }

  lemma {:induction false} BodyAppend(hd: Handler, a: seq<string>, b: seq<string>)
    ensures RewriteBody(hd, a + b) ==
            match (RewriteBody(hd, a), RewriteBody(hd, b))
            case (Ok(x), Ok(y)) => Ok(x + y)
            case _ => Panic
  {
    if a == [] {
      assert a + b == b;
      if RewriteBody(hd, b).Ok? {
        assert [] + RewriteBody(hd, b).value == RewriteBody(hd, b).value;
      }
    } else {
      var handled, x, y := Process(hd, a[0], GetDnsEntryType(a[0])), RewriteBody(hd, a[1..]), RewriteBody(hd, b);
      BodyAppend(hd, a[1..], b);
      assert (a + b)[1..] == a[1..] + b && (a + b)[0] == a[0];
      if handled.Ok? && x.Ok? && y.Ok? {
        PrependAppend(handled.value, x.value, y.value);
      }
    }
  }

  lemma {:induction false} JoinAppend(a: seq<string>, b: seq<string>)
    ensures JoinLines(a + b) == JoinLines(a) + JoinLines(b)
  {
    if a == [] {
      assert a + b == b;
    } else {
      JoinAppend(a[1..], b);
      assert (a + b)[1..] == a[1..] + b;
    }
  }

  lemma ProxyAppend(lines: seq<string>, line: string)
    ensures HasProxy(lines + [line]) == (HasProxy(lines) || GetDnsEntryType(line).Proxy?)
  {
    var all := lines + [line];
    if HasProxy(lines) {
      var i :| 0 <= i < |lines| && GetDnsEntryType(lines[i]).Proxy?;
      assert all[i] == lines[i];
    }
    assert all[|lines|] == line;
  }

  /** The scanner's next line and what is left after it. */
  function NextLine(rest: string): (r: (string, string))
    requires rest != ""
    ensures |r.1| < |rest|
    ensures ScanLines(rest) == [r.0] + ScanLines(r.1)
  {
    var e := LineEnd(rest);
    var raw := RawLines(rest);
    assert e == |rest| ==> rest[..e] == rest;
    assert raw[0] == rest[..e];
    assert raw[1..] == RawLines(if e == |rest| then "" else rest[e + 1..]);
    (DropCR(rest[..e]), if e == |rest| then "" else rest[e + 1..])
  }

  /** What one handler result adds to the output buffer. */
  function Emit(o: Option<string>): (text: string)
    ensures text == JoinLines(Prepend(o, []))
  {
    match o
    case None => ""
    case Some(l) =>
      assert [l][1..] == [];
      assert l + "\n" + "" == l + "\n";
      l + "\n"
  }

  /** Loop invariant: the lines in `done` are rewritten into `buffer`, those of `rest` are to come. */
  ghost predicate Progress(hd: Handler, data: string, done: seq<string>, rest: string, buffer: string) {
    && ScanLines(data) == done + ScanLines(rest)
    && RewriteBody(hd, done).Ok?
    && buffer == JoinLines(RewriteBody(hd, done).value)
  }

  lemma OneMore(hd: Handler, done: seq<string>, line: string)
    requires RewriteBody(hd, done).Ok?
    ensures RewriteBody(hd, done + [line]) ==
            match Process(hd, line, GetDnsEntryType(line))
            case Ok(o) => Ok(RewriteBody(hd, done).value + Prepend(o, []))
            case _ => Panic
  {
    assert [line][1..] == [];
    assert RewriteBody(hd, [line][1..]) == Ok([]);
    BodyAppend(hd, done, [line]);
  }

  lemma ProgressStep(hd: Handler, data: string, done: seq<string>, rest: string, buffer: string,
                     line: string, next: string, handled: Outcome<Option<string>>)
    requires Progress(hd, data, done, rest, buffer)
    requires ScanLines(rest) == [line] + ScanLines(next)
    requires handled == Process(hd, line, GetDnsEntryType(line))
    ensures handled.Ok? ==> Progress(hd, data, done + [line], next, buffer + Emit(handled.value))
    ensures !handled.Ok? ==> RewriteLines(hd, ScanLines(data)).Panic?
  {
    OneMore(hd, done, line);
    Regroup(done, line, ScanLines(next));
    assert ScanLines(data) == (done + [line]) + ScanLines(next);
    if handled.Ok? {
      JoinAppend(RewriteBody(hd, done).value, Prepend(handled.value, []));
    } else {
      BodyAppend(hd, done + [line], ScanLines(next));
    }
  }

  lemma Regroup<T>(a: seq<T>, x: T, b: seq<T>)
    ensures a + ([x] + b) == (a + [x]) + b
  {
  }

  lemma ProgressDone(hd: Handler, data: string, done: seq<string>, buffer: string)
    requires Progress(hd, data, done, "", buffer)
    ensures RewriteFile(hd, data) == Ok(buffer + Emit(AfterProcess(hd, done != [], HasProxy(done))))
  {
    assert ScanLines("") == [];
    assert done + [] == done;
    var last := AfterProcess(hd, done != [], HasProxy(done));
    JoinAppend(RewriteBody(hd, done).value, Prepend(last, []));
  }

  class ResolvFile {
    // None when the file cannot be opened.
    var content: Option<string>

    constructor (content: Option<string>)
      ensures this.content == content
    {
      this.content := content;
    }

    // `writable`: whether the file can be opened for writing once it is read.
    method ProcessResolvconf(hd: Handler, writable: bool) returns (r: Outcome<()>)
      modifies this
      ensures match old(content)
              case None => r.Error? && content == None
              case Some(data) =>
                match RewriteFile(hd, data)
                case Ok(rewritten) => if writable then r.Ok? && content == Some(rewritten)
                                      else r.Error? && content == old(content)
                case _ => r.Panic? && content == old(content)
    {
      if content == None {
        return Error;
      }
      ghost var data, done: seq<string> := content.value, [];
      var buffer := "";
      var hasContent, foundDnsProxyEntry := false, false;
      var rest := content.value;
      assert Progress(hd, data, done, rest, buffer) by {
        assert [] + ScanLines(data) == ScanLines(data);
      }
      while rest != ""
        invariant Progress(hd, data, done, rest, buffer)
        invariant hasContent == (done != []) && foundDnsProxyEntry == HasProxy(done)
        invariant content == old(content)
        decreases |rest|
      {
        var (line, next) := NextLine(rest);
        ProxyAppend(done, line);
        hasContent := true;
        var entryType := GetDnsEntryType(line);
        ProgressStep(hd, data, done, rest, buffer, line, next, Process(hd, line, entryType));
        if entryType == Proxy {
          foundDnsProxyEntry := true;
        }
        match Process(hd, line, entryType) {
          case Ok(r) => buffer := buffer + Emit(r);
          case _ => return Panic;
        }
        done, rest := done + [line], next;
      }
      ProgressDone(hd, data, done, buffer);
      buffer := buffer + Emit(AfterProcess(hd, hasContent, foundDnsProxyEntry));
      if !writable {
        return Error;
      }
      content := Some(buffer);
      r := Ok(());
    }
  }
}
