/**
 Wildcard candidates of a name: the name itself, then every suffix of "." + name that starts
 at a dot, longest first; and what taking the first registered one means.
 */
module Candidates {
  import opened Wrappers
  import opened GoStrings

  predicate DotSuffixAt(hostname: string, i: int) {
    0 <= i && i + 1 < |hostname| && hostname[i] == '.'
  }

  /** Read off character by character. */
  function DotSuffixes(hostname: string): seq<string> {
    if |hostname| < 2 then []
    else (if hostname[0] == '.' then [hostname] else []) + DotSuffixes(hostname[1..])
  }

  function AllHosts(hostname: string): seq<string>
    requires hostname != ""
  {
    [hostname[1..]] + DotSuffixes(hostname)
  }

  /** The index loop: jump from dot to dot and stop at a trailing one. */
  method GetAllHosts(hostname: string) returns (hostnames: seq<string>)
    requires hostname != ""
    ensures hostnames == AllHosts(hostname)
  {
    hostnames := [hostname[1..]];
    var fromIndex, actual := 0, 0;
    while true
      invariant 0 <= fromIndex <= |hostname|
      invariant hostnames + DotSuffixes(hostname[fromIndex..]) == AllHosts(hostname)
      decreases |hostname| - fromIndex
    {
      var str := hostname[fromIndex..];
      actual := Index(str, ".");
      NextDot(str);
      if actual == -1 || actual + 1 >= |str| {
        break;
      }
      assert hostname[fromIndex + actual + 1..] == str[actual + 1..];
      assert hostnames + ([str[actual..]] + DotSuffixes(str[actual + 1..]))
          == (hostnames + [str[actual..]]) + DotSuffixes(str[actual + 1..]);
      hostnames := hostnames + [str[actual..]];
      fromIndex := fromIndex + actual + 1;
    }
  }

  lemma {:induction false} NextDot(str: string)
    ensures var a := Index(str, ".");
            DotSuffixes(str) == if a == -1 || a + 1 >= |str| then [] else [str[a..]] + DotSuffixes(str[a + 1..])
  {
    var a := Index(str, ".");
    if |str| >= 2 {
      if str[0] == '.' {
        assert OccursAt(str, ".", 0);
        assert str[0..] == str;
      } else {
        var rest := str[1..];
        NextDot(rest);
        IndexTail(str);
        if a != -1 {
          assert rest[a - 1..] == str[a..] && rest[a..] == str[a + 1..];
        }
      }
    }
  }

  lemma DotAt(s: string)
    ensures forall i :: 0 <= i < |s| ==> (OccursAt(s, ".", i) <==> s[i] == '.')
  {
    forall i | 0 <= i < |s|
      ensures OccursAt(s, ".", i) <==> s[i] == '.'
    {
      assert s[i..i + 1] == [s[i]];
    }
  }

  lemma IndexTail(str: string)
    requires str != "" && str[0] != '.'
    ensures Index(str, ".") == if Index(str[1..], ".") == -1 then -1 else Index(str[1..], ".") + 1
  {
    var rest, a, b := str[1..], Index(str, "."), Index(str[1..], ".");
    DotAt(str);
    DotAt(rest);
    if b != -1 {
      assert OccursAt(str, ".", b + 1);
    }
    if a != -1 {
      assert OccursAt(rest, ".", a - 1);
    }
  }

  ghost predicate IsDotSuffix(hostname: string, s: string) {
    exists i :: DotSuffixAt(hostname, i) && s == hostname[i..]
  }

  predicate Decreasing(names: seq<string>) {
    forall k, l :: 0 <= k < l < |names| ==> |names[k]| > |names[l]|
  }

  lemma DotSuffixStep(hostname: string, s: string)
    requires |hostname| >= 2
    ensures IsDotSuffix(hostname, s) <==>
            (hostname[0] == '.' && s == hostname) || IsDotSuffix(hostname[1..], s)
  {
    var rest := hostname[1..];
    assert hostname[0..] == hostname;
    if IsDotSuffix(hostname, s) {
      var i :| DotSuffixAt(hostname, i) && s == hostname[i..];
      if i > 0 {
        assert DotSuffixAt(rest, i - 1) && rest[i - 1..] == s;
      }
    }
    if IsDotSuffix(rest, s) {
      var i :| DotSuffixAt(rest, i) && s == rest[i..];
      assert DotSuffixAt(hostname, i + 1) && hostname[i + 1..] == s;
    }
    if hostname[0] == '.' {
      assert DotSuffixAt(hostname, 0);
    }
  }

  /** Exactly the suffixes that start at a dot with something behind it, in strictly decreasing length. */
  lemma {:induction false} DotSuffixesExact(hostname: string)
    ensures forall s :: s in DotSuffixes(hostname) <==> IsDotSuffix(hostname, s)
    ensures Decreasing(DotSuffixes(hostname))
    ensures forall s :: s in DotSuffixes(hostname) ==> |s| <= |hostname|
  {
    if |hostname| >= 2 {
      var rest := hostname[1..];
      DotSuffixesExact(rest);
      forall s
        ensures s in DotSuffixes(hostname) <==> IsDotSuffix(hostname, s)
      {
        DotSuffixStep(hostname, s);
      }
      var d, e := DotSuffixes(hostname), DotSuffixes(rest);
      if hostname[0] == '.' {
        assert d == [hostname] + e;
        assert forall l :: 0 <= l < |e| ==> e[l] in e;
      } else {
        assert d == e;
      }
    }
  }

  predicate NoRepeats(names: seq<string>) {
    forall k, l :: 0 <= k < l < |names| ==> names[k] != names[l]
  }

  /** Is the name itself one of the dot suffixes? */
  lemma NameAsSuffix(name: string)
    ensures name in DotSuffixes("." + name) <==> |name| > 1 && name[0] == '.'
  {
    var h := "." + name;
    DotSuffixesExact(h);
    assert h[1..] == name;
    if |name| > 1 && name[0] == '.' {
      assert DotSuffixAt(h, 1);
    }
    if IsDotSuffix(h, name) {
      var i :| DotSuffixAt(h, i) && name == h[i..];
      assert i == 1 && h[1] == name[0];
    }
  }

  lemma DecreasingNoRepeats(first: string, rest: seq<string>)
    requires Decreasing(rest)
    ensures NoRepeats([first] + rest) <==> first !in rest
  {
    var all := [first] + rest;
    if first in rest {
      var l :| 0 <= l < |rest| && rest[l] == first;
      assert all[0] == all[l + 1];
    } else {
      forall k, l | 0 <= k < l < |all|
        ensures all[k] != all[l]
      {
        assert all[l] == rest[l - 1];
        assert k > 0 ==> all[k] == rest[k - 1];
      }
    }
  }

  /** The list names a candidate twice exactly when the name itself starts with a dot and goes on. */
  lemma NoDuplicates(name: string)
    ensures NoRepeats(AllHosts("." + name)) <==> !(|name| > 1 && name[0] == '.')
  {
    assert ("." + name)[1..] == name;
    DotSuffixesExact("." + name);
    NameAsSuffix(name);
    DecreasingNoRepeats(name, DotSuffixes("." + name));
  }

  // ---- First registered candidate ----

  function FirstRegistered(candidates: seq<string>, registered: string -> bool): Option<string> {
    if candidates == [] then None
    else if registered(candidates[0]) then Some(candidates[0])
    else FirstRegistered(candidates[1..], registered)
  }

  /** The name a question for `name` is answered from. */
  function Lookup(name: string, registered: string -> bool): Option<string> {
    FirstRegistered(AllHosts("." + name), registered)
  }

  lemma {:induction false} FirstOfDecreasing(candidates: seq<string>, registered: string -> bool)
    requires Decreasing(candidates)
    ensures match FirstRegistered(candidates, registered)
            case None => forall s :: s in candidates ==> !registered(s)
            case Some(c) => c in candidates && registered(c) &&
                            forall s :: s in candidates && registered(s) ==> s == c || |s| < |c|
  {
    if candidates != [] {
      assert candidates == [candidates[0]] + candidates[1..];
      FirstOfDecreasing(candidates[1..], registered);
    }
  }

  /**
   Nothing is found exactly when neither the name nor a dot suffix of it is registered; otherwise the
   exact name wins, and failing that the longest registered suffix.
   */
  lemma LookupLaw(name: string, registered: string -> bool)
    ensures Lookup(name, registered).None? <==>
            !registered(name) && forall s :: IsDotSuffix("." + name, s) ==> !registered(s)
    ensures match Lookup(name, registered)
            case None => true
            case Some(c) =>
              if registered(name) then c == name
              else
                && IsDotSuffix("." + name, c)
                && registered(c)
                && forall s :: IsDotSuffix("." + name, s) && registered(s) ==> s == c || |s| < |c|
  {
    var h := "." + name;
    var all := AllHosts(h);
    assert all[0] == h[1..] == name && all[1..] == DotSuffixes(h);
    DotSuffixesExact(h);
    FirstOfDecreasing(DotSuffixes(h), registered);
  }
}
