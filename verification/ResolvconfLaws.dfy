/**
 What the rewrite loop keeps and undoes: on one line, on a list of lines, on the bytes of a
 file, and over any run of set and restore steps.
 */
module ResolvconfLaws {
  import opened Wrappers
  import opened GoStrings
  import opened Resolvconf

  // ---- One line ----

  /** The server lines whose commenting-out the cleaner can undo. */
  predicate Undoable(line: string) {
    && (line == "nameserver" || HasPrefix(line, "nameserver "))
    && !Contains(line, CUT_MARK)
  }

  lemma DnsLineIsProxy(ip: string)
    ensures GetDnsEntryType(GetDnsLine(ip)).Proxy?
    ensures HasPrefix(GetDnsLine(ip), "nameserver ")
  {
    var line := GetDnsLine(ip);
    assert line == ("nameserver " + ip + " ") + ENTRY_MARK;
    assert line[|line| - |ENTRY_MARK|..] == ENTRY_MARK;
  }

  lemma WrapEnds(line: string)
    ensures !HasSuffix(WrapServer(line), ENTRY_MARK) && HasSuffix(WrapServer(line), COMMENT_MARK)
  {
    var w := WrapServer(line);
    assert w[|w| - 1] == 't';
    assert w[|w| - |ENTRY_MARK|..][|ENTRY_MARK| - 1] == 't';
    assert w == ("# " + line + " ") + COMMENT_MARK;
    assert w[|w| - |COMMENT_MARK|..] == COMMENT_MARK;
  }

  lemma WrapStarts(line: string)
    requires HasPrefix(line, "nameserver")
    ensures HasPrefix(WrapServer(line), "#")
    ensures HasPrefix(WrapServer(line), "# nameserver ") <==> line == "nameserver" || HasPrefix(line, "nameserver ")
  {
    var w := WrapServer(line);
    assert w[..1] == "#";
    assert line[..10] == "nameserver";
    if |line| == 10 {
      assert line == "nameserver";
      assert w[..13] == "# nameserver ";
    } else {
      assert w[..13] == "# " + line[..11];
      assert line[..11] == line[..10] + [line[10]];
      assert "nameserver "[..10] == "nameserver";
      assert w[12] == line[10];
    }
  }

  /** A wrapped server line is never a server again; it is a commented server when a blank follows the keyword. */
  lemma WrapType(line: string)
    requires GetDnsEntryType(line).Server?
    ensures GetDnsEntryType(WrapServer(line)) ==
            if line == "nameserver" || HasPrefix(line, "nameserver ") then CommentedServer else Comment
  {
    WrapEnds(line);
    WrapStarts(line);
  }

  /** The marker cannot start before the place it was appended: it has no self-overlap. */
  lemma MarkerNotEarlier(line: string, j: nat)
    requires HasPrefix(line, "nameserver") && !Contains(line, CUT_MARK)
    requires j < |line| + 2
    ensures !OccursAt(WrapServer(line), CUT_MARK, j)
  {
    var w, m := WrapServer(line), |CUT_MARK|;
    if j + m <= |w| {
      var window := w[j..j + m];
      assert window[0] == w[j] && window[1] == w[j + 1] && window[m - 1] == w[j + m - 1];
      if j < 2 {
        assert w[0] == '#' && w[2] == line[..10][0] == 'n';
      } else if j + m <= |line| + 2 {
        assert window == line[j - 2..j - 2 + m];
        assert !OccursAt(line, CUT_MARK, j - 2);
      } else {
        var k := j + m - 1 - (|line| + 2);
        assert w[j + m - 1] == CUT_MARK[k];
        assert 't' !in CUT_MARK[..m - 1] by {
          assert CUT_MARK[..m - 1] == " # dps-commen";
        }
        assert CUT_MARK[k] == CUT_MARK[..m - 1][k];
      }
    }
  }

  lemma MarkerAtEnd(line: string)
    ensures OccursAt(WrapServer(line), CUT_MARK, |line| + 2)
  {
    var w, m := WrapServer(line), |CUT_MARK|;
    assert w == ("# " + line) + CUT_MARK;
    assert w[|line| + 2..|line| + 2 + m] == CUT_MARK;
  }

  lemma MarkerInside(line: string, i: nat)
    requires OccursAt(line, CUT_MARK, i)
    ensures OccursAt(WrapServer(line), CUT_MARK, i + 2)
  {
    var w, m := WrapServer(line), |CUT_MARK|;
    assert w[i + 2..i + 2 + m] == line[i..i + m];
  }

  lemma MarkerPastStart(line: string, end: nat)
    requires HasPrefix(line, "nameserver") && OccursAt(WrapServer(line), CUT_MARK, end)
    ensures end >= 2
  {
    var w, m := WrapServer(line), |CUT_MARK|;
    assert line[..10][0] == 'n' && w[2] == line[0];
    assert w[end..end + m][0] == ' ' && w[end..end + m][1] == '#';
    assert w[end] == ' ' && w[end + 1] == '#';
  }

  lemma CutPoint(line: string)
    requires HasPrefix(line, "nameserver")
    ensures var end := Index(WrapServer(line), CUT_MARK);
            && 2 <= end <= |line| + 2
            && (end == |line| + 2 <==> !Contains(line, CUT_MARK))
  {
    var end := Index(WrapServer(line), CUT_MARK);
    MarkerAtEnd(line);
    MarkerPastStart(line, end);
    if Contains(line, CUT_MARK) {
      var i :| 0 <= i <= |line| && OccursAt(line, CUT_MARK, i);
      MarkerInside(line, i);
    } else if end < |line| + 2 {
      MarkerNotEarlier(line, end);
    }
  }

  /** Commenting a server line out and uncommenting it gives it back exactly for the undoable lines. */
  lemma WrapUnwrap(line: string)
    requires GetDnsEntryType(line).Server?
    ensures var w := WrapServer(line);
            Process(Cleaner, w, GetDnsEntryType(w)) == Ok(Some(line)) <==> Undoable(line)
    ensures var w := WrapServer(line);
            var undone := Process(Cleaner, w, GetDnsEntryType(w));
            undone.Ok? && undone.value.Some? &&
            (undone.value.value == w ||
             (|undone.value.value| <= |line| && undone.value.value == line[..|undone.value.value|]))
  {
    var w := WrapServer(line);
    WrapType(line);
    CutPoint(line);
    var end := Index(w, CUT_MARK);
    assert w[2..end] == line[..end - 2];
    assert |w| > |line|;
  }

  // ---- A list of lines ----

  function SetLine(ip: string, line: string): string {
    match GetDnsEntryType(line)
    case Proxy => GetDnsLine(ip)
    case Server => WrapServer(line)
    case _ => line
  }

  function SetEach(ip: string, lines: seq<string>): (r: seq<string>)
    ensures |r| == |lines|
    ensures forall i :: 0 <= i < |lines| ==> r[i] == SetLine(ip, lines[i])
  {
    if lines == [] then [] else [SetLine(ip, lines[0])] + SetEach(ip, lines[1..])
  }

  /** Every line by `SetLine`, and a server entry at the end unless there was one. */
  function SetLines(ip: string, lines: seq<string>): seq<string> {
    SetEach(ip, lines) + (if HasProxy(lines) then [] else [GetDnsLine(ip)])
  }

  /** The set handler never panics and computes `SetLines`. */
  lemma SetRewrites(ip: string, lines: seq<string>)
    ensures RewriteLines(SetServer(ip), lines) == Ok(SetLines(ip, lines))
  {
    SetBody(ip, lines);
    var last := AfterProcess(SetServer(ip), lines != [], HasProxy(lines));
    assert Prepend(last, []) == if HasProxy(lines) then [] else [GetDnsLine(ip)];
  }

  lemma {:induction false} SetBody(ip: string, lines: seq<string>)
    ensures RewriteBody(SetServer(ip), lines) == Ok(SetEach(ip, lines))
  {
    if lines != [] {
      SetBody(ip, lines[1..]);
    }
  }

  lemma SetLineTwice(a: string, b: string, line: string)
    ensures SetLine(b, SetLine(a, line)) == SetLine(b, line)
    ensures GetDnsEntryType(SetLine(a, line)).Proxy? <==> GetDnsEntryType(line).Proxy?
    ensures !GetDnsEntryType(SetLine(a, line)).Server?
  {
    DnsLineIsProxy(a);
    if GetDnsEntryType(line).Server? {
      WrapType(line);
    }
  }

  lemma SetHasProxy(ip: string, lines: seq<string>)
    ensures HasProxy(SetLines(ip, lines))
  {
    var after := SetLines(ip, lines);
    if HasProxy(lines) {
      var i :| 0 <= i < |lines| && GetDnsEntryType(lines[i]).Proxy?;
      SetLineTwice(ip, ip, lines[i]);
      assert after[i] == SetLine(ip, lines[i]);
    } else {
      DnsLineIsProxy(ip);
      assert after[|lines|] == GetDnsLine(ip);
    }
  }

  lemma {:induction false} SetEachTwice(a: string, b: string, lines: seq<string>)
    ensures SetEach(b, SetEach(a, lines)) == SetEach(b, lines)
  {
    if lines != [] {
      SetLineTwice(a, b, lines[0]);
      SetEachTwice(a, b, lines[1..]);
      assert SetEach(a, lines)[1..] == SetEach(a, lines[1..]);
    }
  }

  lemma {:induction false} SetEachMore(ip: string, lines: seq<string>, line: string)
    ensures SetEach(ip, lines + [line]) == SetEach(ip, lines) + [SetLine(ip, line)]
  {
    if lines == [] {
      assert [line][1..] == [];
    } else {
      SetEachMore(ip, lines[1..], line);
      assert (lines + [line])[1..] == lines[1..] + [line];
    }
  }

  /** Setting again replaces the earlier setting: nothing else of the first run is left. */
  lemma SetAbsorbs(a: string, b: string, lines: seq<string>)
    ensures SetLines(b, SetLines(a, lines)) == SetLines(b, lines)
  {
    var each := SetEach(a, lines);
    SetHasProxy(a, lines);
    SetEachTwice(a, b, lines);
    if HasProxy(lines) {
      assert SetLines(a, lines) == each;
    } else {
      SetEachMore(b, each, GetDnsLine(a));
      DnsLineIsProxy(a);
    }
  }

  /** After any set: no active server, an own entry, all own entries current, at most one line more. */
  lemma SetShape(ip: string, lines: seq<string>)
    ensures var after := SetLines(ip, lines);
            && |lines| <= |after| <= |lines| + 1
            && HasProxy(after)
            && (forall i :: 0 <= i < |after| ==> !GetDnsEntryType(after[i]).Server?)
            && (forall i :: 0 <= i < |after| && GetDnsEntryType(after[i]).Proxy? ==> after[i] == GetDnsLine(ip))
  {
    var after := SetLines(ip, lines);
    SetHasProxy(ip, lines);
    DnsLineIsProxy(ip);
    forall i | 0 <= i < |after|
      ensures !GetDnsEntryType(after[i]).Server?
      ensures GetDnsEntryType(after[i]).Proxy? ==> after[i] == GetDnsLine(ip)
    {
      if i < |lines| {
        SetLineTwice(ip, ip, lines[i]);
      }
    }
  }

  /** Lines that setting and restoring leave as they were. */
  predicate CleanLine(line: string) {
    match GetDnsEntryType(line)
    case Proxy => false
    case CommentedServer => false
    case Server => Undoable(line)
    case _ => true
  }

  predicate CleanLines(lines: seq<string>) {
    forall i :: 0 <= i < |lines| ==> CleanLine(lines[i])
  }

  /** What the cleaner makes of one line after it was set. */
  function SetThenClean(ip: string, line: string): Outcome<Option<string>> {
    var s := SetLine(ip, line);
    Process(Cleaner, s, GetDnsEntryType(s))
  }

  lemma CleanLineExact(ip: string, line: string)
    ensures SetThenClean(ip, line) == Ok(Some(line)) <==> CleanLine(line)
    ensures SetThenClean(ip, line) == Ok(None) <==> GetDnsEntryType(line).Proxy?
  {
    DnsLineIsProxy(ip);
    if GetDnsEntryType(line).Server? {
      WrapUnwrap(line);
    }
  }

  lemma {:induction false} CleanerShortens(xs: seq<string>)
    ensures RewriteBody(Cleaner, xs).Ok? ==> |RewriteBody(Cleaner, xs).value| <= |xs|
  {
    if xs != [] {
      CleanerShortens(xs[1..]);
    }
  }

  lemma CleanerStep(xs: seq<string>, lines: seq<string>)
    requires |xs| == |lines| > 0
    ensures RewriteBody(Cleaner, xs) == Ok(lines) <==>
            Process(Cleaner, xs[0], GetDnsEntryType(xs[0])) == Ok(Some(lines[0])) &&
            RewriteBody(Cleaner, xs[1..]) == Ok(lines[1..])
  {
    CleanerShortens(xs[1..]);
    assert lines == [lines[0]] + lines[1..];
    var r := RewriteBody(Cleaner, xs);
    if r.Ok? {
      var o := Process(Cleaner, xs[0], GetDnsEntryType(xs[0])).value;
      var rest := RewriteBody(Cleaner, xs[1..]).value;
      if o.Some? {
        assert r.value[0] == o.value && r.value[1..] == rest;
      }
    }
  }

  /** The cleaner turns `xs` into `lines` exactly when it does so line by line: it never adds a line. */
  lemma {:induction false} CleanerPointwise(xs: seq<string>, lines: seq<string>)
    requires |xs| == |lines|
    ensures RewriteBody(Cleaner, xs) == Ok(lines) <==>
            forall i :: 0 <= i < |xs| ==> Process(Cleaner, xs[i], GetDnsEntryType(xs[i])) == Ok(Some(lines[i]))
  {
    if xs != [] {
      CleanerStep(xs, lines);
      CleanerPointwise(xs[1..], lines[1..]);
      assert forall i :: 1 <= i < |xs| ==> xs[i] == xs[1..][i - 1] && lines[i] == lines[1..][i - 1];
      assert forall i :: 0 <= i < |xs| - 1 ==> xs[1..][i] == xs[i + 1] && lines[1..][i] == lines[i + 1];
    }
  }

  /** Own entries are dropped, so the entry `SetLines` adds at the end makes no difference to the cleaner. */
  lemma CleanerSkipsTail(ip: string, each: seq<string>, found: bool)
    ensures RewriteLines(Cleaner, each + (if found then [] else [GetDnsLine(ip)])) == RewriteBody(Cleaner, each)
  {
    DnsLineIsProxy(ip);
    var tail := if found then [] else [GetDnsLine(ip)];
    assert RewriteBody(Cleaner, tail) == Ok([]) by {
      assert tail != [] ==> tail[1..] == [];
      assert RewriteBody(Cleaner, []) == Ok([]);
    }
    BodyAppend(Cleaner, each, tail);
    var r := RewriteBody(Cleaner, each);
    if r.Ok? {
      assert r.value + [] == r.value;
      assert (r.value + []) + [] == r.value;
    }
  }

  /** The cleaner undoes a set exactly on clean lines. */
  lemma CleanerUndoesSet(ip: string, lines: seq<string>)
    ensures RewriteLines(Cleaner, SetLines(ip, lines)) == Ok(lines) <==> CleanLines(lines)
  {
    var each := SetEach(ip, lines);
    CleanerSkipsTail(ip, each, HasProxy(lines));
    CleanerPointwise(each, lines);
    forall i | 0 <= i < |lines|
      ensures Process(Cleaner, each[i], GetDnsEntryType(each[i])) == Ok(Some(lines[i])) <==> CleanLine(lines[i])
    {
      CleanLineExact(ip, lines[i]);
    }
  }

  lemma {:induction false} CleanerKeepsClean(lines: seq<string>)
    requires CleanLines(lines)
    ensures RewriteBody(Cleaner, lines) == Ok(lines)
  {
    if lines != [] {
      assert CleanLine(lines[0]);
      assert forall i :: 0 <= i < |lines| - 1 ==> lines[1..][i] == lines[i + 1];
      CleanerKeepsClean(lines[1..]);
      assert [lines[0]] + lines[1..] == lines;
    }
  }

  /** A commented server line without the marker: the one thing the cleaner cannot handle. */
  predicate Unmarked(line: string) {
    GetDnsEntryType(line).CommentedServer? && !Contains(line, CUT_MARK)
  }

  lemma {:induction false} CleanerPanics(lines: seq<string>)
    ensures RewriteLines(Cleaner, lines).Panic? <==> exists i :: 0 <= i < |lines| && Unmarked(lines[i])
    ensures RewriteBody(Cleaner, lines).Panic? <==> exists i :: 0 <= i < |lines| && Unmarked(lines[i])
  {
    if lines != [] {
      CleanerPanics(lines[1..]);
      assert forall i :: 1 <= i < |lines| ==> lines[i] == lines[1..][i - 1];
      assert forall i :: 0 <= i < |lines| - 1 ==> lines[1..][i] == lines[i + 1];
      if GetDnsEntryType(lines[0]).CommentedServer? {
        CommentedCut(lines[0]);
      }
    }
  }

  lemma CommentedCut(line: string)
    requires GetDnsEntryType(line).CommentedServer?
    ensures Contains(line, CUT_MARK) ==> 2 <= Index(line, CUT_MARK) <= |line|
  {
    var end, m := Index(line, CUT_MARK), |CUT_MARK|;
    if Contains(line, CUT_MARK) {
      assert line[end..end + m][0] == ' ' && line[end..end + m][1] == '#';
      assert line[..13][0] == '#' && line[..13][1] == ' ' && line[..13][2] == 'n';
    }
  }
}
