/** The origin of a message: how a prefix token is classified, and that printing inverts it. */
module Prefixes {
  import opened Wrappers
  import opened Octets
  import opened ByteClasses

  datatype Prefix =
    | Server(name: Bytes)
    | User(nick: Bytes, user: Option<Bytes>, host: Option<Bytes>)

  function Classify(raw: Bytes): Prefix {
    var bang := IndexOf(raw, BANG);
    var at := IndexOf(raw, AT_SIGN);
    if bang < at < |raw| then User(raw[..bang], Some(raw[bang + 1..at]), Some(raw[at + 1..]))
    else if bang < |raw| && at == |raw| then User(raw[..bang], Some(raw[bang + 1..]), None)
    else if bang == |raw| && at < |raw| then User(raw[..at], None, Some(raw[at + 1..]))
    else if DOT in raw then Server(raw)
    else User(raw, None, None)
  }

  function Marked(mark: byte, part: Option<Bytes>): Bytes {
    if part.Some? then [mark] + part.value else []
  }

  /** The prefix token without its colon and its space. */
  function Token(p: Prefix): Bytes {
    match p
    case Server(name) => name
    case User(nick, user, host) => nick + (Marked(BANG, user) + Marked(AT_SIGN, host))
  }

  function PrefixText(p: Option<Prefix>): Bytes {
    if p.Some? then [COLON] + (Token(p.value) + [SPACE]) else []
  }

  method WriteToken(p: Prefix, out: BytesMut)
    modifies out
    ensures out.data == old(out.data) + Token(p)
  {
    match p {
      case Server(name) =>
        out.ExtendFromSlice(name);
      case User(nick, user, host) =>
        out.ExtendFromSlice(nick);
        if user.Some? {
          out.PutU8(BANG);
          out.ExtendFromSlice(user.value);
        }
        assert out.data == old(out.data) + nick + Marked(BANG, user);
        if host.Some? {
          out.PutU8(AT_SIGN);
          out.ExtendFromSlice(host.value);
        }
        assert out.data == old(out.data) + nick + Marked(BANG, user) + Marked(AT_SIGN, host);
    }
  }

  method WritePrefix(p: Prefix, out: BytesMut)
    modifies out
    ensures out.data == old(out.data) + PrefixText(Some(p))
  {
    hide Token;
    out.PutU8(COLON);
    WriteToken(p, out);
    out.PutU8(SPACE);
  }

  /** The bytes a prefix token may hold. */
  predicate IsTokenByte(b: byte) {
    b != SPACE && !IsForbidden(b)
  }

  function PrefixAt(data: Bytes, start: nat): (r: Result<(Prefix, nat), ParseError>)
    requires start <= |data|
    ensures r.Ok? ==> start < r.value.1 <= |data|
  {
    var e := Span(data, start, IsTokenByte);
    if e < |data| && IsForbidden(data[e]) then Err(Forbidden(e))
    else if e == start then Err(InvalidPrefix(start))
    else Ok((Classify(data[start..e]), e))
  }

  method ParsePrefix(data: Bytes, start: nat) returns (r: Result<(Prefix, nat), ParseError>)
    requires start <= |data|
    ensures r == PrefixAt(data, start)
  {
    var i := start;
    while i < |data| && data[i] != SPACE
      invariant start <= i <= |data|
      invariant Span(data, start, IsTokenByte) == Span(data, i, IsTokenByte)
    {
      if IsForbidden(data[i]) {
        return Err(Forbidden(i));
      }
      i := i + 1;
    }
    if i == start {
      return Err(InvalidPrefix(start));
    }
    return Ok((Classify(data[start..i]), i));
  }

  /** A token with a mark is read as a user, except one with a dot whose first @ comes before its first !. */
  lemma MarkedTokenIsUser(raw: Bytes)
    requires BANG in raw || AT_SIGN in raw
    ensures Classify(raw).User? <==> !(IndexOf(raw, AT_SIGN) < IndexOf(raw, BANG) < |raw| && DOT in raw)
  {
    hide IndexOf;
    NoMark(raw, BANG);
    NoMark(raw, AT_SIGN);
  }

  /** A token without a mark is read as a server with a dot, as a bare nick without one. */
  lemma UnmarkedTokenIsServerOrNick(raw: Bytes)
    requires BANG !in raw && AT_SIGN !in raw
    ensures Classify(raw) == if DOT in raw then Server(raw) else User(raw, None, None)
  {
    hide IndexOf;
    NoMark(raw, BANG);
    NoMark(raw, AT_SIGN);
  }

  /** A marked token that is read as a server. */
  lemma MarkedServer()
    ensures var raw := [97, AT_SIGN, 98, DOT, 99, BANG, 100];  // a@b.c!d
            AT_SIGN in raw && BANG in raw && Classify(raw) == Server(raw)
  {
    var raw: Bytes := [97, AT_SIGN, 98, DOT, 99, BANG, 100];
    assert raw[1] == AT_SIGN && raw[3] == DOT && raw[5] == BANG;
    FirstIndex(raw, AT_SIGN, 1);
    FirstIndex(raw, BANG, 5);
  }

  /** Neither nick!user nor nick@host nor nick!user@host: no mark at all, or the first @ before the first !. */
  predicate Unmarked(token: Bytes) {
    (BANG !in token && AT_SIGN !in token) || IndexOf(token, AT_SIGN) < IndexOf(token, BANG) < |token|
  }

  /** The parts hold no separator that would be read as another part. */
  predicate WellShaped(p: Prefix) {
    match p
    case Server(name) => DOT in name && Unmarked(name)
    case User(nick, None, None) => DOT !in nick && Unmarked(nick)
    case User(nick, None, Some(host)) => BANG !in nick && AT_SIGN !in nick && BANG !in host
    case User(nick, Some(user), _) => BANG !in nick && AT_SIGN !in nick && AT_SIGN !in user
  }

  predicate WellFormedPrefix(p: Prefix) {
    Token(p) != [] && (forall k :: 0 <= k < |Token(p)| ==> IsTokenByte(Token(p)[k])) && WellShaped(p)
  }

  /** A text cut at two of its bytes. */
  lemma CutTwice(s: Bytes, i: nat, j: nat)
    requires i < j < |s|
    ensures s == s[..i] + (([s[i]] + s[i + 1..j]) + ([s[j]] + s[j + 1..]))
  {
  }

  lemma FullMaskToken(raw: Bytes, i: nat, j: nat)
    requires i < j < |raw| && raw[i] == BANG && raw[j] == AT_SIGN
    ensures Token(User(raw[..i], Some(raw[i + 1..j]), Some(raw[j + 1..]))) == raw
  {
    CutTwice(raw, i, j);
  }

  lemma HalfMaskToken(raw: Bytes, i: nat)
    requires i < |raw|
    ensures raw[i] == BANG ==> Token(User(raw[..i], Some(raw[i + 1..]), None)) == raw
    ensures raw[i] == AT_SIGN ==> Token(User(raw[..i], None, Some(raw[i + 1..]))) == raw
  {
    CutAt(raw, i);
    assert raw[..i] + (([raw[i]] + raw[i + 1..]) + []) == raw;
    assert raw[..i] + ([] + ([raw[i]] + raw[i + 1..])) == raw;
  }

  lemma BareToken(raw: Bytes)
    ensures Token(Server(raw)) == raw && Token(User(raw, None, None)) == raw
  {
  }

  lemma TokenInvertsClassify(raw: Bytes)
    ensures Token(Classify(raw)) == raw
  {
    hide IndexOf, Token;
    var bang := IndexOf(raw, BANG);
    var at := IndexOf(raw, AT_SIGN);
    BareToken(raw);
    if bang < at < |raw| {
      FullMaskToken(raw, bang, at);
    } else if bang < |raw| && at == |raw| {
      HalfMaskToken(raw, bang);
    } else if bang == |raw| && at < |raw| {
      HalfMaskToken(raw, at);
    }
  }

  lemma ClassifiedIsWellShaped(raw: Bytes)
    ensures WellShaped(Classify(raw))
  {
    var bang := IndexOf(raw, BANG);
    var at := IndexOf(raw, AT_SIGN);
    assert bang == |raw| ==> BANG !in raw;
    assert at == |raw| ==> AT_SIGN !in raw;
  }

  lemma ClassifyInvertsToken(p: Prefix)
    ensures Classify(Token(p)) == p <==> WellShaped(p)
  {
    if Classify(Token(p)) == p {
      ClassifiedIsWellShaped(Token(p));
    } else if WellShaped(p) {
      WellShapedIsClassified(p);
      assert false;
    }
  }

  lemma WellShapedIsClassified(p: Prefix)
    requires WellShaped(p)
    ensures Classify(Token(p)) == p
  {
    match p {
      case Server(name) =>
      case User(nick, None, None) =>
        assert Token(p) == nick;
      case User(nick, None, Some(host)) =>
        HostOnlyIsClassified(nick, host);
      case User(nick, Some(user), None) =>
        UserOnlyIsClassified(nick, user);
      case User(nick, Some(user), Some(host)) =>
        FullMaskIsClassified(nick, user, host);
    }
  }

  lemma HostOnlyIsClassified(nick: Bytes, host: Bytes)
    requires WellShaped(User(nick, None, Some(host)))
    ensures Classify(Token(User(nick, None, Some(host)))) == User(nick, None, Some(host))
  {
    var raw := Token(User(nick, None, Some(host)));
    assert raw == nick + ([AT_SIGN] + host);
    FirstMark(nick, AT_SIGN, host);
    assert BANG !in raw;
    assert raw[..|nick|] == nick && raw[|nick| + 1..] == host;
  }

  lemma UserOnlyIsClassified(nick: Bytes, user: Bytes)
    requires WellShaped(User(nick, Some(user), None))
    ensures Classify(Token(User(nick, Some(user), None))) == User(nick, Some(user), None)
  {
    var raw := Token(User(nick, Some(user), None));
    assert raw == nick + ([BANG] + user);
    FirstMark(nick, BANG, user);
    assert AT_SIGN !in raw;
    assert raw[..|nick|] == nick && raw[|nick| + 1..] == user;
  }

  lemma FullMaskIsClassified(nick: Bytes, user: Bytes, host: Bytes)
    requires WellShaped(User(nick, Some(user), Some(host)))
    ensures Classify(Token(User(nick, Some(user), Some(host)))) == User(nick, Some(user), Some(host))
  {
    var raw := Token(User(nick, Some(user), Some(host)));
    assert raw == nick + ([BANG] + (user + ([AT_SIGN] + host)));
    FirstMark(nick, BANG, user + ([AT_SIGN] + host));
    var front := nick + ([BANG] + user);
    assert raw == front + ([AT_SIGN] + host);
    assert AT_SIGN !in front;
    FirstMark(front, AT_SIGN, host);
    assert raw[..|nick|] == nick && raw[|nick| + 1..|front|] == user && raw[|front| + 1..] == host;
  }

  lemma PrintedPrefixParses(data: Bytes, i: nat, p: Prefix)
    requires WellFormedPrefix(p) && At(data, i, Token(p))
    requires i + |Token(p)| < |data| && data[i + |Token(p)|] == SPACE
    ensures PrefixAt(data, i) == Ok((p, i + |Token(p)|))
  {
    var e := i + |Token(p)|;
    assert data[i..e] == Token(p);
    assert forall k :: i <= k < e ==> data[k] == Token(p)[k - i];
    SpanIs(data, i, e, IsTokenByte);
    ClassifyInvertsToken(p);
  }

  lemma ParsedPrefixPrints(data: Bytes, i: nat)
    requires i <= |data| && PrefixAt(data, i).Ok?
    ensures var (p, e) := PrefixAt(data, i).value;
            && At(data, i, Token(p)) && i + |Token(p)| == e && WellFormedPrefix(p)
            && Span(data, i, NotSpace) == e
  {
    hide Token, Classify, WellShaped;
    var (p, e) := PrefixAt(data, i).value;
    TokenInvertsClassify(data[i..e]);
    ClassifiedIsWellShaped(data[i..e]);
    SpanIs(data, i, e, NotSpace);
  }
}
