/** Dotted-quad addresses: printing four bytes and parsing them back. */
module IpUtils {
  import opened Wrappers
  import opened GoStrings
  import opened Dns

  /**
   The bytes the white space at the start takes, or none: an ASCII space, or one of the Unicode spaces in UTF-8
   (U+0085, U+00A0; U+1680, U+2000 to U+200A, U+2028, U+2029, U+202F, U+205F, U+3000). A stray byte is no space.
   */
  function SpaceWidth(s: string): (n: nat)
    ensures n <= |s|
  {
    if |s| >= 1 && (9 <= s[0] as int <= 13 || s[0] == ' ') then 1
    else if |s| >= 2 && s[0] as int == 0xC2 && s[1] as int in {0x85, 0xA0} then 2
    else if |s| >= 3 && IsWideSpace(s[0] as int, s[1] as int, s[2] as int) then 3
    else 0
  }

  predicate IsWideSpace(a: int, b: int, c: int) {
    || (a == 0xE1 && b == 0x9A && c == 0x80)
    || (a == 0xE2 && b == 0x80 && (0x80 <= c <= 0x8A || c in {0xA8, 0xA9, 0xAF}))
    || (a == 0xE2 && b == 0x81 && c == 0x9F)
    || (a == 0xE3 && b == 0x80 && c == 0x80)
  }

  /** Nothing is left of it when white space is trimmed. */
  predicate Blank(s: string)
    decreases |s|
  {
    s == "" || (SpaceWidth(s) > 0 && Blank(s[SpaceWidth(s)..]))
  }

  function BeforeColon(ip: string): string {
    var index := Index(ip, ":");
    if index >= 0 then ip[..index] else ip
  }

  function LowByte(n: int): uint8 {
    n % 0x100
  }

  /** Piece by piece; a piece that is no number, or a fifth piece, panics. Only the low byte is kept. */
  function FillBytes(bytes: seq<uint8>, pieces: seq<string>, j: nat): (r: Outcome<seq<uint8>>)
    ensures r.Ok? ==> |r.value| == |bytes|
    decreases |pieces|
  {
    if pieces == [] then Ok(bytes)
    else
      match Atoi(pieces[0])
      case None => Panic
      case Some(n) =>
        if j >= |bytes| then Panic else FillBytes(bytes[j := LowByte(n)], pieces[1..], j + 1)
  }

  function ParseIp(bytes: seq<uint8>, ip: string): Outcome<seq<uint8>> {
    if Blank(ip) then Ok(bytes) else FillBytes(bytes, Split(BeforeColon(ip), '.'), 0)
  }

  /** Writes into the caller's array; on a panic the array is lost. */
  method ToIpByteArray(byteArray: array<uint8>, ip: string) returns (r: Outcome<()>)
    requires byteArray.Length == 4
    modifies byteArray
    ensures match ParseIp(old(byteArray[..]), ip)
            case Ok(bytes) => r.Ok? && byteArray[..] == bytes
            case _ => r.Panic?
  {
    if Blank(ip) {
      return Ok(());
    }
    var ipStringArray := Split(BeforeColon(ip), '.');
    for j := 0 to |ipStringArray|
      invariant ParseIp(old(byteArray[..]), ip) == FillBytes(byteArray[..], ipStringArray[j..], j)
    {
      var piece := Atoi(ipStringArray[j]);
      if piece.None? || j >= byteArray.Length {
        return Panic;
      }
      ghost var before := byteArray[..];
      byteArray[j] := LowByte(piece.value);
      assert byteArray[..] == before[j := LowByte(piece.value)];
      assert ipStringArray[j..][1..] == ipStringArray[j + 1..];
    }
    r := Ok(());
  }

  type Quad = ip: seq<uint8> | |ip| == 4 witness [0, 0, 0, 0]

  const ZERO_IP: Quad := [0, 0, 0, 0]

  /** Parsing into a fresh array. */
  function ParseQuad(ip: string): Outcome<Quad> {
    match ParseIp(ZERO_IP, ip)
    case Ok(bytes) => Ok(bytes)
    case _ => Panic
  }

  function ToIpString(ip: seq<uint8>): string
    requires |ip| == 4
  {
    Decimal(ip[0]) + "." + Decimal(ip[1]) + "." + Decimal(ip[2]) + "." + Decimal(ip[3])
  }

  function Decimals(ip: seq<uint8>): (r: seq<string>)
    ensures |r| == |ip|
    ensures forall i :: 0 <= i < |ip| ==> r[i] == Decimal(ip[i])
  {
    if ip == [] then [] else [Decimal(ip[0])] + Decimals(ip[1..])
  }

  lemma IpStringJoins(ip: seq<uint8>)
    requires |ip| == 4
    ensures ToIpString(ip) == Join(Decimals(ip), '.')
  {
    var d := Decimals(ip);
    assert Join(d[1..][1..][1..], '.') == d[3];
    assert Join(d[1..][1..], '.') == d[2] + "." + d[3];
    assert Join(d[1..], '.') == d[1] + "." + (d[2] + "." + d[3]);
    assert Join(d, '.') == d[0] + "." + (d[1] + "." + (d[2] + "." + d[3]));
  }

  /** `ip` written over `bytes` from position `j`. */
  function Written(bytes: seq<uint8>, ip: seq<uint8>, j: nat): seq<uint8>
    requires j + |ip| <= |bytes|
  {
    bytes[..j] + ip + bytes[j + |ip|..]
  }

  lemma {:induction false} FillDecimals(bytes: seq<uint8>, ip: seq<uint8>, j: nat)
    requires j + |ip| <= |bytes|
    ensures FillBytes(bytes, Decimals(ip), j) == Ok(Written(bytes, ip, j))
    decreases |ip|
  {
    if ip == [] {
      NoneWritten(bytes, j);
    } else {
      FillOne(bytes, ip[0], Decimals(ip[1..]), j);
      FillDecimals(bytes[j := ip[0]], ip[1..], j + 1);
      OneWritten(bytes, ip, j);
    }
  }

  lemma NoneWritten(bytes: seq<uint8>, j: nat)
    requires j <= |bytes|
    ensures Written(bytes, [], j) == bytes
  {
  }

  lemma OneWritten(bytes: seq<uint8>, ip: seq<uint8>, j: nat)
    requires ip != [] && j + |ip| <= |bytes|
    ensures Written(bytes[j := ip[0]], ip[1..], j + 1) == Written(bytes, ip, j)
  {
  }

  lemma FillOne(bytes: seq<uint8>, n: uint8, rest: seq<string>, j: nat)
    requires j < |bytes|
    ensures FillBytes(bytes, [Decimal(n)] + rest, j) == FillBytes(bytes[j := n], rest, j + 1)
  {
    AtoiInvertsDecimal(n);
    assert Atoi(Decimal(n)) == Some(n) && LowByte(n) == n;
    assert ([Decimal(n)] + rest)[1..] == rest;
  }

  lemma {:induction false} JoinDigits(parts: seq<string>, c: char)
    requires parts != [] && (forall i :: 0 <= i < |parts| ==> AllDigits(parts[i])) && !IsDigit(c) && c != '.'
    ensures c !in Join(parts, '.')
  {
    if |parts| > 1 {
      JoinDigits(parts[1..], c);
    }
  }

  lemma IpStringPieces(ip: Quad)
    ensures var s := ToIpString(ip);
            !Blank(s) && BeforeColon(s) == s && Split(s, '.') == Decimals(ip)
  {
    var s := ToIpString(ip);
    assert s[0] == Decimal(ip[0])[0] && IsDigit(s[0]);
    IpStringJoins(ip);
    JoinDigits(Decimals(ip), ':');
    NoCharNoMatch(s, ':');
    SplitOfJoin(Decimals(ip), '.');
  }

  lemma AllWritten(bytes: seq<uint8>, ip: seq<uint8>)
    requires |bytes| == |ip|
    ensures Written(bytes, ip, 0) == ip
  {
  }

  /** Printing and parsing gives the four bytes back, whatever the array held. */
  lemma IpRoundTrip(bytes: seq<uint8>, ip: Quad)
    requires |bytes| == 4
    ensures ParseIp(bytes, ToIpString(ip)) == Ok(ip)
  {
    IpStringPieces(ip);
    assert ParseIp(bytes, ToIpString(ip)) == FillBytes(bytes, Decimals(ip), 0);
    FillDecimals(bytes, ip, 0);
    AllWritten(bytes, ip);
  }

  // ---- Any text ----

  predicate Numbers(pieces: seq<string>) {
    forall i :: 0 <= i < |pieces| ==> Atoi(pieces[i]).Some?
  }

  lemma NumbersMore(pieces: seq<string>)
    requires pieces != []
    ensures Numbers(pieces) <==> Atoi(pieces[0]).Some? && Numbers(pieces[1..])
  {
    assert pieces == [pieces[0]] + pieces[1..];
  }

  lemma {:induction false} FillsWhen(bytes: seq<uint8>, pieces: seq<string>, j: nat)
    requires j <= |bytes|
    ensures var r := FillBytes(bytes, pieces, j);
            if j + |pieces| <= |bytes| && Numbers(pieces) then r.Ok? else r.Panic?
    decreases |pieces|
  {
    if pieces != [] {
      NumbersMore(pieces);
      if Atoi(pieces[0]).Some? && j < |bytes| {
        FillsWhen(bytes[j := LowByte(Atoi(pieces[0]).value)], pieces[1..], j + 1);
      }
    }
  }

  lemma {:induction false} FilledAt(bytes: seq<uint8>, pieces: seq<string>, j: nat, i: nat)
    requires j <= |bytes| && i < |bytes| && FillBytes(bytes, pieces, j).Ok?
    requires Numbers(pieces)
    ensures FillBytes(bytes, pieces, j).value[i] ==
            if j <= i < j + |pieces| then Atoi(pieces[i - j]).value % 0x100 else bytes[i]
    decreases |pieces|
  {
    if pieces != [] {
      var low := LowByte(Atoi(pieces[0]).value);
      NumbersMore(pieces);
      FilledAt(bytes[j := low], pieces[1..], j + 1, i);
      assert i > j && i - j < |pieces| ==> pieces[1..][i - (j + 1)] == pieces[i - j];
    }
  }

  lemma FirstColon(host: string, rest: string)
    requires ':' !in host
    ensures Index(host + (":" + rest), ":") == |host|
  {
    var s := host + (":" + rest);
    assert s[|host|..|host| + 1] == ":" && OccursAt(s, ":", |host|);
    forall i | 0 <= i < |host|
      ensures !OccursAt(s, ":", i)
    {
      assert s[i..i + 1] == [host[i]];
    }
  }

  lemma BeforePort(host: string, rest: string)
    requires ':' !in host
    ensures BeforeColon(host) == host && BeforeColon(host + (":" + rest)) == host
  {
    NoCharNoMatch(host, ':');
    FirstColon(host, rest);
    assert (host + (":" + rest))[..|host|] == host;
  }

  /**
   What parsing leaves, for any text before the first colon: at most four numbers between dots, each cut to its low
   byte; missing ones leave the array as it was. Anything else but a blank text panics.
   */
  lemma ParsedExactly(bytes: seq<uint8>, host: string, rest: string)
    requires |bytes| == 4 && ':' !in host && !Blank(host + (":" + rest))
    ensures var pieces := Split(host, '.');
            var r := ParseIp(bytes, host + (":" + rest));
            && (if |pieces| <= 4 && Numbers(pieces) then r.Ok? else r.Panic?)
            && (r.Ok? ==> forall i :: 0 <= i < 4 ==>
                  r.value[i] == if i < |pieces| then Atoi(pieces[i]).value % 0x100 else bytes[i])
            && (!Blank(host) ==> ParseIp(bytes, host) == r)
  {
    BeforePort(host, rest);
    var pieces := Split(host, '.');
    FillsWhen(bytes, pieces, 0);
    if FillBytes(bytes, pieces, 0).Ok? {
      forall i | 0 <= i < 4
        ensures FillBytes(bytes, pieces, 0).value[i] ==
                if i < |pieces| then Atoi(pieces[i]).value % 0x100 else bytes[i]
      {
        FilledAt(bytes, pieces, 0, i);
      }
    }
  }

  predicate PlainByte(s: string) {
    PlainDigits(s) && DigitsValue(s) <= 0xFF
  }

  /** Four plain bytes between dots. */
  predicate PlainAddress(ip: string) {
    var parts := Split(ip, '.');
    |parts| == 4 && forall i :: 0 <= i < 4 ==> PlainByte(parts[i])
  }

  lemma PrintedIsPlain(ip: Quad)
    ensures PlainAddress(ToIpString(ip))
  {
    IpStringJoins(ip);
    SplitOfJoin(Decimals(ip), '.');
    forall i | 0 <= i < 4
      ensures PlainByte(Decimal(ip[i]))
    {
      DecimalIsPlain(ip[i]);
      DecimalValue(ip[i]);
    }
  }

  /** A plain address is the printed form of its four bytes. */
  lemma PlainIsPrinted(ip: string) returns (q: Quad)
    requires PlainAddress(ip)
    ensures ToIpString(q) == ip
  {
    var parts := Split(ip, '.');
    q := [DigitsValue(parts[0]), DigitsValue(parts[1]), DigitsValue(parts[2]), DigitsValue(parts[3])];
    forall i | 0 <= i < 4
      ensures Decimal(q[i]) == parts[i]
    {
      PlainDigitsPrint(parts[i]);
    }
    assert Decimals(q) == parts;
    IpStringJoins(q);
    JoinOfSplit(ip, '.');
  }
}
