/** DCC requests inside CTCP payloads: addresses and sizes as decimal numbers, split at white space. */
module Dcc {
  import opened Wrappers
  import opened Widths
  import opened Octets
  import opened Separated
  import opened Decimal
  import opened Ctcp

  const MAX_U16: nat := 0xffff
  const MAX_U32: nat := 0xffff_ffff
  const MAX_U64: nat := 0xffff_ffff_ffff_ffff

  datatype Ipv4Addr = Ipv4Addr(a: byte, b: byte, c: byte, d: byte)

  function IpToU32(ip: Ipv4Addr): u32 {
    ((ip.a as int * 256 + ip.b as int) * 256 + ip.c as int) * 256 + ip.d as int
  }

  function U32ToIp(n: u32): Ipv4Addr {
    Ipv4Addr((n / 0x100_0000) as byte, (n / 0x1_0000 % 256) as byte, (n / 256 % 256) as byte, (n % 256) as byte)
  }

  lemma FourBytes(a: nat, b: nat, c: nat, d: nat)
    requires a < 256 && b < 256 && c < 256 && d < 256
    ensures var n := ((a * 256 + b) * 256 + c) * 256 + d;
            n / 0x100_0000 == a && n / 0x1_0000 % 256 == b && n / 256 % 256 == c && n % 256 == d
  {
    var n := ((a * 256 + b) * 256 + c) * 256 + d;
    assert n / 256 == (a * 256 + b) * 256 + c;
    assert n / 0x1_0000 == a * 256 + b;
  }

  /** The two conversions undo each other. */
  lemma IpRoundTrip(ip: Ipv4Addr, n: u32)
    ensures U32ToIp(IpToU32(ip)) == ip
    ensures IpToU32(U32ToIp(n)) == n
  {
    FourBytes(ip.a as int, ip.b as int, ip.c as int, ip.d as int);
    var q := n / 256;
    assert n == q * 256 + n % 256;
    assert n / 0x1_0000 == q / 256 && n / 0x100_0000 == q / 256 / 256;
  }

  datatype DccRequest =
    | Chat(ip: Ipv4Addr, port: u16)
    | Send(filename: Bytes, ip: Ipv4Addr, port: u16, size: u64)

  // ----- UTF-8 -----

  predicate Tail(b: byte) {
    0x80 <= b <= 0xBF
  }

  /** The length of the well-formed UTF-8 sequence at the start of s, or zero. */
  function CharLength(s: Bytes): (n: nat)
    ensures n <= |s| && n <= 4
  {
    if s == [] then 0
    else if s[0] <= 0x7F then 1
    else if |s| >= 2 && 0xC2 <= s[0] <= 0xDF && Tail(s[1]) then 2
    else if |s| >= 3 && 0xE0 <= s[0] <= 0xEF && Tail(s[1]) && Tail(s[2])
            && (s[0] == 0xE0 ==> s[1] >= 0xA0) && (s[0] == 0xED ==> s[1] <= 0x9F) then 3
    else if |s| >= 4 && 0xF0 <= s[0] <= 0xF4 && Tail(s[1]) && Tail(s[2]) && Tail(s[3])
            && (s[0] == 0xF0 ==> s[1] >= 0x90) && (s[0] == 0xF4 ==> s[1] <= 0x8F) then 4
    else 0
  }

  predicate ValidUtf8(s: Bytes)
    decreases |s|
  {
    s == [] || (CharLength(s) > 0 && ValidUtf8(s[CharLength(s)..]))
  }

  lemma FirstChar(a: Bytes, b: Bytes)
    requires CharLength(a) > 0
    ensures CharLength(a + b) == CharLength(a)
  {
    assert forall k :: 0 <= k < |a| ==> (a + b)[k] == a[k];
  }

  lemma {:induction false} ValidConcat(a: Bytes, b: Bytes)
    requires ValidUtf8(a) && ValidUtf8(b)
    ensures ValidUtf8(a + b)
    decreases |a|
  {
    hide CharLength;
    if a == [] {
      assert a + b == b;
    } else {
      FirstChar(a, b);
      ValidConcat(a[CharLength(a)..], b);
      assert (a + b)[CharLength(a)..] == a[CharLength(a)..] + b;
    }
  }

  predicate Ascii(s: Bytes) {
    forall k :: 0 <= k < |s| ==> s[k] <= 0x7F
  }

  lemma {:induction false} AsciiIsValid(s: Bytes)
    requires Ascii(s)
    ensures ValidUtf8(s)
    decreases |s|
  {
    if s != [] {
      AsciiIsValid(s[1..]);
    }
  }

  /** A valid text may be cut before any of its ASCII bytes. */
  lemma {:induction false} ValidCut(s: Bytes, i: nat)
    requires ValidUtf8(s) && i < |s| && s[i] <= 0x7F
    ensures ValidUtf8(s[..i]) && ValidUtf8(s[i..])
    decreases |s|
  {
    if i > 0 {
      var n := CharLength(s);
      assert i >= n;
      var rest := s[n..];
      if i == n {
        assert s[..n][CharLength(s[..n])..] == [];
      } else {
        ValidCut(rest, i - n);
        assert rest[i - n..] == s[i..];
        assert CharLength(s[..i]) == n && s[..i][n..] == rest[..i - n];
      }
    } else {
      assert s[0..] == s;
    }
  }

  // ----- Words -----

  predicate IsWhite(b: byte) {
    b == 9 || b == 10 || b == 12 || b == 13 || b == 32
  }

  predicate NotWhite(b: byte) {
    !IsWhite(b)
  }

  /** split_ascii_whitespace: the longest runs of other bytes. */
  function Words(s: Bytes): seq<Bytes>
    decreases |s|
  {
    if s == [] then []
    else if IsWhite(s[0]) then Words(s[1..])
    else
      var e := Span(s, 0, NotWhite);
      [s[..e]] + Words(s[e..])
  }

  predicate IsWord(w: Bytes) {
    w != [] && forall k :: 0 <= k < |w| ==> NotWhite(w[k])
  }

  lemma FirstWord(w: Bytes, rest: Bytes)
    requires IsWord(w)
    ensures Words(w + ([SPACE] + rest)) == [w] + Words(rest)
    ensures Words(w) == [w]
  {
    var s := w + ([SPACE] + rest);
    SpanIs(s, 0, |w|, NotWhite);
    assert s[..|w|] == w && s[|w|..] == [SPACE] + rest && ([SPACE] + rest)[1..] == rest;
    SpanIs(w, 0, |w|, NotWhite);
    assert w[..|w|] == w && w[|w|..] == [] && Words([]) == [];
  }

  lemma {:induction false} WordsAreWords(s: Bytes)
    ensures forall k :: 0 <= k < |Words(s)| ==> IsWord(Words(s)[k]) && (ValidUtf8(s) ==> ValidUtf8(Words(s)[k]))
    decreases |s|
  {
    hide CharLength;
    if s != [] {
      if IsWhite(s[0]) {
        if ValidUtf8(s) && |s| > 1 {
          AsciiHead(s);
        }
        WordsAreWords(s[1..]);
      } else {
        var e := Span(s, 0, NotWhite);
        if ValidUtf8(s) && e < |s| {
          ValidCut(s, e);
        }
        assert e == |s| ==> s[..e] == s;
        WordsAreWords(s[e..]);
      }
    }
  }

  lemma AsciiHead(s: Bytes)
    requires s != [] && s[0] <= 0x7F && ValidUtf8(s)
    ensures ValidUtf8(s[1..])
  {
  }

  // ----- Requests -----

  const CHAT: Bytes := [67, 72, 65, 84]
  const SEND: Bytes := [83, 69, 78, 68]
  const CHAT_PROTOCOL: Bytes := [99, 104, 97, 116]
  const DCC: Bytes := [68, 67, 67]

  function RequestFrom(words: seq<Bytes>): Option<DccRequest> {
    if words == [] then None
    else if Uppercase(words[0]) == CHAT then
      if |words| < 4 then None
      else
        var ip :- FromStr(words[2], MAX_U32);
        var port :- FromStr(words[3], MAX_U16);
        Some(Chat(U32ToIp(ip), port))
    else if Uppercase(words[0]) == SEND then
      if |words| < 5 then None
      else
        var ip :- FromStr(words[2], MAX_U32);
        var port :- FromStr(words[3], MAX_U16);
        var size :- FromStr(words[4], MAX_U64);
        Some(Send(words[1], U32ToIp(ip), port, size))
    else None
  }

  function ParseDcc(args: Bytes): Option<DccRequest> {
    if ValidUtf8(args) then RequestFrom(Words(args)) else None
  }

  /** The words of a printed request. */
  function RequestWords(r: DccRequest): seq<Bytes> {
    match r
    case Chat(ip, port) => [CHAT, CHAT_PROTOCOL, Digits(IpToU32(ip)), Digits(port)]
    case Send(filename, ip, port, size) => [SEND, filename, Digits(IpToU32(ip)), Digits(port), Digits(size)]
  }

  function RequestText(r: DccRequest): Bytes {
    Join(SPACE, RequestWords(r))
  }

  function Payload(r: DccRequest): Bytes {
    [DELIMITER] + (DCC + [SPACE]) + RequestText(r) + [DELIMITER]
  }

  // ----- Round trips -----

  lemma {:induction false} DigitsAreAWord(n: nat)
    ensures IsWord(Digits(n)) && Ascii(Digits(n))
  {
    DigitsHaveValue(n);
  }

  lemma {:induction false} SpacedWords(words: seq<Bytes>)
    requires forall k :: 0 <= k < |words| ==> IsWord(words[k])
    ensures Words(Join(SPACE, words)) == words
  {
    hide Words, IsWord;
    if words == [] {
      NoWords();
    } else {
      FirstWord(words[0], Join(SPACE, words[1..]));
      SpacedWords(words[1..]);
      assert words == [words[0]] + words[1..];
    }
  }

  lemma NoWords()
    ensures Words([]) == []
  {
  }

  lemma {:induction false} SpacedIsValid(words: seq<Bytes>)
    requires forall k :: 0 <= k < |words| ==> ValidUtf8(words[k])
    ensures ValidUtf8(Join(SPACE, words))
  {
    hide ValidUtf8;
    if |words| <= 1 {
      AsciiIsValid([]);
    } else {
      SpacedIsValid(words[1..]);
      AsciiIsValid([SPACE]);
      ValidConcat([SPACE], Join(SPACE, words[1..]));
      ValidConcat(words[0], [SPACE] + Join(SPACE, words[1..]));
    }
  }

  /** A filename that is valid UTF-8, as every Rust string is, not empty and free of white space. */
  predicate Sendable(r: DccRequest) {
    r.Send? ==> IsWord(r.filename) && ValidUtf8(r.filename)
  }

  lemma RequestWordsAreWords(r: DccRequest)
    requires Sendable(r)
    ensures forall k :: 0 <= k < |RequestWords(r)| ==> IsWord(RequestWords(r)[k]) && ValidUtf8(RequestWords(r)[k])
  {
    hide ValidUtf8, Digits;
    AsciiIsValid(CHAT);
    AsciiIsValid(SEND);
    AsciiIsValid(CHAT_PROTOCOL);
    DigitsAreAWord(IpToU32(r.ip));
    AsciiIsValid(Digits(IpToU32(r.ip)));
    DigitsAreAWord(r.port);
    AsciiIsValid(Digits(r.port));
    if r.Send? {
      DigitsAreAWord(r.size);
      AsciiIsValid(Digits(r.size));
    }
  }

  lemma WordsMeanTheRequest(r: DccRequest)
    ensures RequestFrom(RequestWords(r)) == Some(r)
  {
    hide IpToU32, U32ToIp, Digits, FromStr;
    IpRoundTrip(r.ip, 0);
    PrintedNumberParses(IpToU32(r.ip), MAX_U32);
    PrintedNumberParses(r.port, MAX_U16);
    KeywordsDiffer();
    if r.Send? {
      PrintedNumberParses(r.size, MAX_U64);
    }
  }

  lemma KeywordsDiffer()
    ensures Uppercase(CHAT) == CHAT && Uppercase(SEND) == SEND && CHAT != SEND
  {
  }

  lemma ParsedIsSendable(args: Bytes)
    requires ParseDcc(args).Some?
    ensures Sendable(ParseDcc(args).value)
  {
    hide Words, ValidUtf8, FromStr, U32ToIp;
    WordsAreWords(args);
  }

  /** A request printed as arguments is read back exactly when it is sendable. */
  lemma RequestRoundTrip(r: DccRequest)
    ensures ParseDcc(RequestText(r)) == Some(r) <==> Sendable(r)
  {
    hide RequestWords, Join, Words, ValidUtf8, RequestFrom;
    if Sendable(r) {
      RequestWordsAreWords(r);
      SpacedWords(RequestWords(r));
      SpacedIsValid(RequestWords(r));
      WordsMeanTheRequest(r);
    } else if ParseDcc(RequestText(r)) == Some(r) {
      ParsedIsSendable(RequestText(r));
      assert false;
    }
  }

  /** Printed as a CTCP payload, taken out of it and read: the same request, exactly when it is sendable. */
  lemma PayloadRoundTrip(r: DccRequest)
    ensures ParseCtcp(Payload(r)) == Some(CtcpMessage(DCC, RequestText(r)))
    ensures ParseDcc(ParseCtcp(Payload(r)).value.args) == Some(r) <==> Sendable(r)
  {
    hide ParseCtcp, ParseDcc, Sendable, RequestText;
    RequestTextIsNotEmpty(r);
    var m := CtcpMessage(DCC, RequestText(r));
    assert Payload(r) == CtcpText(m);
    CtcpRoundTrip(m);
    RequestRoundTrip(r);
  }

  lemma RequestTextIsNotEmpty(r: DccRequest)
    ensures RequestText(r) != []
  {
  }

  /** The letter case of the keyword changes nothing. */
  lemma KeywordInAnyCase(a: Bytes, b: Bytes, rest: seq<Bytes>)
    requires SameButCase(a, b)
    ensures RequestFrom([a] + rest) == RequestFrom([b] + rest)
  {
    hide Uppercase, FromStr, U32ToIp;
    UppercaseForgetsCase(a, b);
    assert ([a] + rest)[1..] == ([b] + rest)[1..];
  }

  /** Addresses convert in network byte order: the loopback address, and the four bytes one by one. */
  lemma NetworkByteOrder()
    ensures IpToU32(Ipv4Addr(127, 0, 0, 1)) == 2_130_706_433
    ensures IpToU32(Ipv4Addr(1, 0, 0, 0)) == 0x100_0000 && IpToU32(Ipv4Addr(0, 1, 0, 0)) == 0x1_0000
    ensures IpToU32(Ipv4Addr(0, 0, 1, 0)) == 0x100 && IpToU32(Ipv4Addr(0, 0, 0, 1)) == 1
  {
  }

  /** Whatever arguments were read as a request, printing it and reading it again gives the same request. */
  lemma ReadPrintRead(args: Bytes)
    requires ParseDcc(args).Some?
    ensures ParseDcc(RequestText(ParseDcc(args).value)) == ParseDcc(args)
  {
    hide ParseDcc, RequestText, Sendable;
    ParsedIsSendable(args);
    RequestRoundTrip(ParseDcc(args).value);
  }
}
