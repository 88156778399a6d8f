/** The parts of Go's `strings`, `strconv` and `fmt` the proxy relies on, over characters. */
module GoStrings {
  import opened Wrappers

  // ---- Prefixes, suffixes and substring search ----

  predicate HasPrefix(s: string, p: string) {
    |p| <= |s| && s[..|p|] == p
  }

  predicate HasSuffix(s: string, p: string) {
    |p| <= |s| && s[|s| - |p|..] == p
  }

  predicate OccursAt(s: string, p: string, i: int) {
    0 <= i <= |s| - |p| && s[i..i + |p|] == p
  }

  predicate Contains(s: string, p: string) {
    exists i :: 0 <= i <= |s| && OccursAt(s, p, i)
  }

  /** `strings.Index`: the first position at which `p` occurs, or -1. */
  function Index(s: string, p: string): (r: int)
    ensures r == -1 || OccursAt(s, p, r)
    ensures r == -1 <==> !Contains(s, p)
    ensures forall j :: 0 <= j < r ==> !OccursAt(s, p, j)
  {
    IndexFrom(s, p, 0)
  }

  function IndexFrom(s: string, p: string, i: nat): (r: int)
    requires i <= |s|
    requires forall j :: 0 <= j < i ==> !OccursAt(s, p, j)
    ensures r == -1 || OccursAt(s, p, r)
    ensures r == -1 <==> !Contains(s, p)
    ensures forall j :: 0 <= j < r ==> !OccursAt(s, p, j)
    decreases |s| - i
  {
    if OccursAt(s, p, i) then i
    else if i == |s| then -1
    else IndexFrom(s, p, i + 1)
  }

  // ---- Decimal numbers ----

  const MIN_INT: int := -0x8000_0000_0000_0000
  const MAX_INT: int := 0x7fff_ffff_ffff_ffff

  predicate IsDigit(c: char) {
    '0' <= c <= '9'
  }

  predicate AllDigits(s: string) {
    forall i :: 0 <= i < |s| ==> IsDigit(s[i])
  }

  function DigitChar(d: nat): (c: char)
    requires d < 10
    ensures IsDigit(c) && DigitValue(c) == d
  {
    "0123456789"[d]
  }

  function DigitValue(c: char): nat
    requires IsDigit(c)
  {
    c as int - '0' as int
  }

  /** `%d` of a non-negative number. */
  function Decimal(n: nat): (s: string)
    ensures |s| > 0 && AllDigits(s)
  {
    if n < 10 then [DigitChar(n)] else Decimal(n / 10) + [DigitChar(n % 10)]
  }

  /** `%d` of any int. */
  function PrintInt(n: int): string {
    if n < 0 then "-" + Decimal(-n) else Decimal(n)
  }

  function DigitsValue(s: string): nat
    requires AllDigits(s)
  {
    if s == "" then 0
    else
      var front := s[..|s| - 1];
      assert forall i :: 0 <= i < |front| ==> front[i] == s[i];
      10 * DigitsValue(front) + DigitValue(s[|s| - 1])
  }

  /** `strconv.Atoi`: an optional sign and at least one digit, in the range of a 64-bit int. */
  function Atoi(s: string): Option<int> {
    var signed := s != "" && (s[0] == '-' || s[0] == '+');
    var body := if signed then s[1..] else s;
    if body == "" || !AllDigits(body) then None
    else
      var magnitude: int := DigitsValue(body);
      var n := if signed && s[0] == '-' then -magnitude else magnitude;
      if MIN_INT <= n <= MAX_INT then Some(n) else None
  }

  lemma {:induction false} DecimalValue(n: nat)
    ensures DigitsValue(Decimal(n)) == n
  {
    if n < 10 {
      assert Decimal(n)[..0] == "";
    } else {
      DecimalValue(n / 10);
      assert Decimal(n)[..|Decimal(n)| - 1] == Decimal(n / 10);
    }
  }

  /** Printing and parsing back gives the number for exactly the values a machine int can hold. */
  lemma AtoiInvertsDecimal(n: nat)
    ensures Atoi(Decimal(n)) == if n <= MAX_INT then Some(n) else None
  {
    DecimalValue(n);
  }

  lemma AtoiInvertsPrint(n: int)
    ensures Atoi(PrintInt(n)) == if MIN_INT <= n <= MAX_INT then Some(n) else None
  {
    if n < 0 {
      DecimalValue(-n);
      assert PrintInt(n)[1..] == Decimal(-n);
    } else {
      DecimalValue(n);
    }
  }

  lemma DecimalInjective(m: nat, n: nat)
    requires Decimal(m) == Decimal(n)
    ensures m == n
  {
    DecimalValue(m);
    DecimalValue(n);
  }

  /** Digits as they are printed: no leading zero but in "0". */
  predicate PlainDigits(s: string) {
    s != "" && AllDigits(s) && (|s| == 1 || s[0] != '0')
  }

  lemma {:induction false} DecimalIsPlain(n: nat)
    ensures PlainDigits(Decimal(n)) && (Decimal(n)[0] == '0' <==> n == 0)
  {
    if n >= 10 {
      DecimalIsPlain(n / 10);
    }
  }

  lemma LastDigit(n: nat, last: char)
    requires IsDigit(last)
    ensures Decimal(10 * n + DigitValue(last)) == if n == 0 then [last] else Decimal(n) + [last]
  {
    var m := 10 * n + DigitValue(last);
    assert m / 10 == n && m % 10 == DigitValue(last);
    assert DigitChar(DigitValue(last)) == last;
  }

  lemma ValueOfMore(front: string, last: char)
    requires AllDigits(front) && IsDigit(last)
    ensures AllDigits(front + [last]) && DigitsValue(front + [last]) == 10 * DigitsValue(front) + DigitValue(last)
  {
    var s := front + [last];
    assert s[..|s| - 1] == front;
  }

  /** Parsing and printing gives plain digits back. */
  lemma {:induction false} PlainDigitsPrint(s: string)
    requires PlainDigits(s)
    ensures Decimal(DigitsValue(s)) == s
  {
    var front, last := s[..|s| - 1], s[|s| - 1];
    assert s == front + [last];
    ValueOfMore(front, last);
    LastDigit(DigitsValue(front), last);
    if |s| > 1 {
      assert front[0] == s[0];
      PlainDigitsPrint(front);
      DecimalIsPlain(DigitsValue(front));
    }
  }

  // ---- Splitting at a separator character ----

  /** `strings.Split` with a one-character separator. */
  function Split(s: string, sep: char): (parts: seq<string>)
    ensures |parts| >= 1
  {
    if s == "" then [""]
    else
      var rest := Split(s[1..], sep);
      if s[0] == sep then [""] + rest else [[s[0]] + rest[0]] + rest[1..]
  }

  lemma {:induction false} SplitFirst(a: string, sep: char, rest: string)
    requires sep !in a
    ensures Split(a + [sep] + rest, sep) == [a] + Split(rest, sep)
  {
    var s := a + [sep] + rest;
    if a == "" {
      assert s[1..] == rest;
    } else {
      SplitFirst(a[1..], sep, rest);
      assert s[1..] == a[1..] + [sep] + rest;
      assert [a[0]] + a[1..] == a;
    }
  }

  lemma {:induction false} SplitNone(a: string, sep: char)
    requires sep !in a
    ensures Split(a, sep) == [a]
  {
    if a != "" {
      SplitNone(a[1..], sep);
      assert [a[0]] + a[1..] == a;
    }
  }

  function Join(parts: seq<string>, sep: char): string
    requires parts != []
  {
    if |parts| == 1 then parts[0] else parts[0] + [sep] + Join(parts[1..], sep)
  }

  lemma {:induction false} SplitOfJoin(parts: seq<string>, sep: char)
    requires parts != [] && forall i :: 0 <= i < |parts| ==> sep !in parts[i]
    ensures Split(Join(parts, sep), sep) == parts
  {
    if |parts| == 1 {
      SplitNone(parts[0], sep);
    } else {
      SplitOfJoin(parts[1..], sep);
      SplitFirst(parts[0], sep, Join(parts[1..], sep));
    }
  }

  /** Between two separators, or the ends. */
  ghost predicate IsPiece(s: string, sep: char, p: string) {
    exists a, b :: IsPieceAt(s, sep, p, a, b)
  }

  predicate IsPieceAt(s: string, sep: char, p: string, a: int, b: int) {
    && 0 <= a <= b <= |s| && s[a..b] == p && sep !in p
    && (a == 0 || s[a - 1] == sep) && (b == |s| || s[b] == sep)
  }

  lemma PieceOfNone(s: string, sep: char, p: string)
    requires sep !in s
    ensures IsPiece(s, sep, p) <==> p == s
  {
    assert s[0..|s|] == s;
    if p == s {
      assert IsPieceAt(s, sep, p, 0, |s|);
    }
  }

  lemma PieceShift(head: string, sep: char, tail: string, p: string, a: int, b: int)
    requires |head| < a
    ensures IsPieceAt(head + [sep] + tail, sep, p, a, b) <==>
            IsPieceAt(tail, sep, p, a - |head| - 1, b - |head| - 1)
  {
    var s, n := head + [sep] + tail, |head| + 1;
    assert s[n..] == tail;
    if a <= b <= |s| {
      assert s[a..b] == tail[a - n..b - n];
      assert a > n ==> s[a - 1] == tail[a - n - 1];
      assert b < |s| ==> s[b] == tail[b - n];
    }
  }

  lemma PieceOfMore(head: string, sep: char, tail: string, p: string)
    requires sep !in head
    ensures IsPiece(head + [sep] + tail, sep, p) <==> p == head || IsPiece(tail, sep, p)
  {
    var s, n := head + [sep] + tail, |head| + 1;
    if p == head {
      assert s[0..|head|] == head && s[|head|] == sep;
      assert IsPieceAt(s, sep, p, 0, |head|);
    }
    if a, b :| IsPieceAt(tail, sep, p, a, b) {
      PieceShift(head, sep, tail, p, a + n, b + n);
    }
    if a, b :| IsPieceAt(s, sep, p, a, b) {
      if a == 0 {
        FirstPiece(head, sep, tail, p, b);
      } else {
        assert forall k :: 0 <= k < |head| ==> s[k] == head[k];
        PieceShift(head, sep, tail, p, a, b);
      }
    }
  }

  lemma FirstPiece(head: string, sep: char, tail: string, p: string, b: int)
    requires sep !in head && IsPieceAt(head + [sep] + tail, sep, p, 0, b)
    ensures p == head
  {
    var s := head + [sep] + tail;
    forall k | 0 <= k < b
      ensures s[k] != sep
    {
      assert p[k] == s[k];
    }
    assert s[|head|] == sep && forall k :: 0 <= k < |head| ==> s[k] == head[k];
    assert s[0..b] == head;
  }

  lemma {:induction false} PiecesOfJoin(parts: seq<string>, sep: char, p: string)
    requires parts != [] && forall i :: 0 <= i < |parts| ==> sep !in parts[i]
    ensures p in parts <==> IsPiece(Join(parts, sep), sep, p)
  {
    if |parts| == 1 {
      PieceOfNone(parts[0], sep, p);
    } else {
      PiecesOfJoin(parts[1..], sep, p);
      PieceOfMore(parts[0], sep, Join(parts[1..], sep), p);
      assert parts == [parts[0]] + parts[1..];
    }
  }

  lemma {:induction false} SplitSeparates(s: string, sep: char)
    ensures forall i :: 0 <= i < |Split(s, sep)| ==> sep !in Split(s, sep)[i]
  {
    if s != "" {
      SplitSeparates(s[1..], sep);
    }
  }

  /** Splitting gives exactly what stands between separators. */
  lemma SplitPieces(s: string, sep: char, p: string)
    ensures p in Split(s, sep) <==> IsPiece(s, sep, p)
  {
    SplitSeparates(s, sep);
    JoinOfSplit(s, sep);
    PiecesOfJoin(Split(s, sep), sep, p);
  }

  lemma JoinLongerHead(c: char, parts: seq<string>, sep: char)
    requires parts != []
    ensures Join([[c] + parts[0]] + parts[1..], sep) == [c] + Join(parts, sep)
  {
    var longer := [[c] + parts[0]] + parts[1..];
    assert longer[1..] == parts[1..];
    if |parts| > 1 {
      assert [c] + parts[0] + [sep] + Join(parts[1..], sep) == [c] + (parts[0] + [sep] + Join(parts[1..], sep));
    }
  }

  lemma {:induction false} JoinOfSplit(s: string, sep: char)
    ensures Join(Split(s, sep), sep) == s
  {
    if s != "" {
      var rest := Split(s[1..], sep);
      JoinOfSplit(s[1..], sep);
      if s[0] == sep {
        assert ([""] + rest)[1..] == rest;
        assert Join([""] + rest, sep) == "" + [sep] + Join(rest, sep);
      } else {
        JoinLongerHead(s[0], rest, sep);
      }
      assert s == [s[0]] + s[1..];
    }
  }

  lemma NoCharNoMatch(s: string, c: char)
    requires c !in s
    ensures !Contains(s, [c])
  {
    forall i | 0 <= i <= |s|
      ensures !OccursAt(s, [c], i)
    {
      if i < |s| {
        assert s[i..i + 1] == [s[i]];
      }
    }
  }
}
