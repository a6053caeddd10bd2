/** The typed command layer: which commands survive command, message, bytes, message, command. */
module Commands {
  import opened Wrappers
  import opened Widths
  import opened Octets
  import opened Separated
  import opened Verbs
  import opened ParamLists
  import opened Messages

  method JoinCommas(items: seq<Bytes>) returns (out: Bytes)
    ensures out == Join(COMMA, items)
  {
    out := JoinAll(COMMA, items);
  }

  // ----- Commands -----

  const CAP: Bytes := [67, 65, 80]
  const NICK: Bytes := [78, 73, 67, 75]
  const USER: Bytes := [85, 83, 69, 82]
  const PASS: Bytes := [80, 65, 83, 83]
  const AUTHENTICATE: Bytes := [65, 85, 84, 72, 69, 78, 84, 73, 67, 65, 84, 69]
  const QUIT: Bytes := [81, 85, 73, 84]
  const PING: Bytes := [80, 73, 78, 71]
  const PONG: Bytes := [80, 79, 78, 71]
  const JOIN: Bytes := [74, 79, 73, 78]
  const PART: Bytes := [80, 65, 82, 84]
  const PRIVMSG: Bytes := [80, 82, 73, 86, 77, 83, 71]
  const NOTICE: Bytes := [78, 79, 84, 73, 67, 69]
  const TOPIC: Bytes := [84, 79, 80, 73, 67]
  const MODE: Bytes := [77, 79, 68, 69]
  const LIST: Bytes := [76, 73, 83, 84]
  const STAR: Bytes := [42]

  const CAP_LS: Bytes := [76, 83]
  const CAP_REQ: Bytes := [82, 69, 81]
  const CAP_ACK: Bytes := [65, 67, 75]
  const CAP_NAK: Bytes := [78, 65, 75]
  const CAP_NEW: Bytes := [78, 69, 87]
  const CAP_DEL: Bytes := [68, 69, 76]
  const CAP_END: Bytes := [69, 78, 68]

  datatype CapSub = CapLs | CapList | CapReq | CapAck | CapNak | CapNew | CapDel | CapEnd | CapOther(bytes: Bytes)

  function ParseCapSub(bytes: Bytes): CapSub {
    var upper := Uppercase(bytes);
    if upper == CAP_LS then CapLs
    else if upper == LIST then CapList
    else if upper == CAP_REQ then CapReq
    else if upper == CAP_ACK then CapAck
    else if upper == CAP_NAK then CapNak
    else if upper == CAP_NEW then CapNew
    else if upper == CAP_DEL then CapDel
    else if upper == CAP_END then CapEnd
    else CapOther(bytes)
  }

  function CapSubBytes(sub: CapSub): Bytes {
    match sub
    case CapLs => CAP_LS
    case CapList => LIST
    case CapReq => CAP_REQ
    case CapAck => CAP_ACK
    case CapNak => CAP_NAK
    case CapNew => CAP_NEW
    case CapDel => CAP_DEL
    case CapEnd => CAP_END
    case CapOther(bytes) => bytes
  }

  datatype Command =
    | Cap(subcommand: CapSub, args: seq<Bytes>)
    | Nick(nick: Bytes)
    | User(user: Bytes, mode: Bytes, realname: Bytes)
    | Pass(password: Bytes)
    | Authenticate(payload: Bytes)
    | Quit(reason: Option<Bytes>)
    | Ping(token: Bytes, server: Option<Bytes>)
    | Pong(token: Bytes, server: Option<Bytes>)
    | JoinChannels(channels: seq<Bytes>, keys: seq<Bytes>)
    | Part(channels: seq<Bytes>, reason: Option<Bytes>)
    | Privmsg(targets: seq<Bytes>, text: Bytes)
    | Notice(targets: seq<Bytes>, text: Bytes)
    | Topic(channel: Bytes, topic: Option<Bytes>)
    | Mode(target: Bytes, changes: Option<Bytes>, args: seq<Bytes>)
    | ListChannels(channels: seq<Bytes>, server: Option<Bytes>)
    | NumericReply(code: u16, params: Params)
    | Unknown(verb: Bytes, params: Params)

  datatype CommandError = MissingParam(command: Bytes, required: nat, got: nat)

  // ----- From a message -----

  function Get(values: seq<Bytes>, i: nat): Option<Bytes> {
    if i < |values| then Some(values[i]) else None
  }

  predicate IsKeyword(upper: Bytes) {
    upper == CAP || upper == NICK || upper == USER || upper == PASS || upper == AUTHENTICATE || upper == QUIT
    || upper == PING || upper == PONG || upper == JOIN || upper == PART || upper == PRIVMSG || upper == NOTICE
    || upper == TOPIC || upper == MODE || upper == LIST
  }

  /** The least number of params each command needs. */
  function Required(upper: Bytes): nat {
    if upper == USER then 4
    else if upper == PRIVMSG || upper == NOTICE then 2
    else if upper == QUIT || upper == LIST || !IsKeyword(upper) then 0
    else 1
  }

  lemma RequiredTable()
    ensures Required(USER) == 4 && Required(PRIVMSG) == Required(NOTICE) == 2
    ensures Required(CAP) == Required(NICK) == Required(PASS) == Required(AUTHENTICATE) == Required(PING) == 1
    ensures Required(PONG) == Required(JOIN) == Required(PART) == Required(TOPIC) == Required(MODE) == 1
  {
  }

  function FromWord(word: Bytes, params: Params): Result<Command, CommandError> {
    var upper := Uppercase(word);
    var v := params.values;
    if |v| < Required(upper) then Err(MissingParam(upper, Required(upper), |v|))
    else Ok(
      if upper == CAP then Cap(ParseCapSub(v[0]), v[1..])
      else if upper == NICK then Nick(v[0])
      else if upper == USER then User(v[0], v[1], v[3])
      else if upper == PASS then Pass(v[0])
      else if upper == AUTHENTICATE then Authenticate(v[0])
      else if upper == QUIT then Quit(Get(v, 0))
      else if upper == PING then Ping(v[0], Get(v, 1))
      else if upper == PONG then Pong(v[0], Get(v, 1))
      else if upper == JOIN then JoinChannels(Split(COMMA, v[0]), if |v| > 1 then Split(COMMA, v[1]) else [])
      else if upper == PART then Part(Split(COMMA, v[0]), Get(v, 1))
      else if upper == PRIVMSG then Privmsg(Split(COMMA, v[0]), v[1])
      else if upper == NOTICE then Notice(Split(COMMA, v[0]), v[1])
      else if upper == TOPIC then Topic(v[0], Get(v, 1))
      else if upper == MODE then Mode(v[0], Get(v, 1), if |v| > 2 then v[2..] else [])
      else if upper == LIST then ListChannels(if |v| > 0 then Split(COMMA, v[0]) else [], Get(v, 1))
      else Unknown(word, params))
  }

  function FromMessage(m: Message): Result<Command, CommandError> {
    match m.verb
    case Numeric(code) => Ok(NumericReply(code, m.params))
    case Word(word) => FromWord(word, m.params)
  }

  // ----- To a message -----

  function Listed(value: Option<Bytes>): seq<Bytes> {
    if value.Some? then [value.value] else []
  }

  function VerbOf(c: Command): Verb {
    match c
    case Cap(_, _) => Word(CAP)
    case Nick(_) => Word(NICK)
    case User(_, _, _) => Word(USER)
    case Pass(_) => Word(PASS)
    case Authenticate(_) => Word(AUTHENTICATE)
    case Quit(_) => Word(QUIT)
    case Ping(_, _) => Word(PING)
    case Pong(_, _) => Word(PONG)
    case JoinChannels(_, _) => Word(JOIN)
    case Part(_, _) => Word(PART)
    case Privmsg(_, _) => Word(PRIVMSG)
    case Notice(_, _) => Word(NOTICE)
    case Topic(_, _) => Word(TOPIC)
    case Mode(_, _, _) => Word(MODE)
    case ListChannels(_, _) => Word(LIST)
    case NumericReply(code, _) => Numeric(code)
    case Unknown(verb, _) => Word(verb)
  }

  function ValuesOf(c: Command): seq<Bytes> {
    match c
    case Cap(sub, args) => [CapSubBytes(sub)] + args
    case Nick(nick) => [nick]
    case User(user, mode, realname) => [user, mode, STAR, realname]
    case Pass(password) => [password]
    case Authenticate(payload) => [payload]
    case Quit(reason) => Listed(reason)
    case Ping(token, server) => [token] + Listed(server)
    case Pong(token, server) => [token] + Listed(server)
    case JoinChannels(channels, keys) => [Join(COMMA, channels)] + if keys == [] then [] else [Join(COMMA, keys)]
    case Part(channels, reason) => [Join(COMMA, channels)] + Listed(reason)
    case Privmsg(targets, text) => [Join(COMMA, targets), text]
    case Notice(targets, text) => [Join(COMMA, targets), text]
    case Topic(channel, topic) => [channel] + Listed(topic)
    case Mode(target, changes, args) => [target] + Listed(changes) + args
    case ListChannels(channels, server) => (if channels == [] then [] else [Join(COMMA, channels)]) + Listed(server)
    case NumericReply(_, params) => params.values
    case Unknown(_, params) => params.values
  }

  function TrailingOf(c: Command): bool {
    match c
    case Cap(sub, args) => SPACE in ValuesOf(c)[|args|]
    case User(_, _, _) => true
    case Quit(reason) => reason.Some?
    case Part(_, reason) => reason.Some?
    case Privmsg(_, _) => true
    case Notice(_, _) => true
    case Topic(_, topic) => topic.Some?
    case NumericReply(_, params) => params.trailing
    case Unknown(_, params) => params.trailing
    case _ => false
  }

  function MessageOf(c: Command): Message {
    Message([], None, VerbOf(c), Params(ValuesOf(c), TrailingOf(c)))
  }

  function Push(p: Params, v: Bytes): Params {
    p.(values := p.values + [v])
  }

  function PushTrailing(p: Params, v: Bytes): Params {
    Params(p.values + [v], true)
  }

  method PushAll(start: Params, items: seq<Bytes>) returns (p: Params)
    ensures p == start.(values := start.values + items)
  {
    p := start;
    var i := 0;
    while i < |items|
      invariant i <= |items|
      invariant p == start.(values := start.values + items[..i])
    {
      p := Push(p, items[i]);
      i := i + 1;
    }
    assert items[..i] == items;
  }

  method PromoteLastToTrailingIfNeeded(start: Params) returns (p: Params)
    ensures p == if start.values != [] && SPACE in start.values[|start.values| - 1] then Params(start.values, true)
                 else start
  {
    p := start;
    if |p.values| > 0 {
      var last := p.values[|p.values| - 1];
      if SPACE in last {
        var rebuilt := PushAll(Params([], false), p.values[..|p.values| - 1]);
        p := PushTrailing(rebuilt, last);
        assert p.values == start.values;
      }
    }
  }

  method BuildTokenServer(token: Bytes, server: Option<Bytes>) returns (p: Params)
    ensures p == Params([token] + Listed(server), false)
  {
    p := Push(Params([], false), token);
    if server.Some? {
      p := Push(p, server.value);
    }
  }

  method CapParams(sub: CapSub, args: seq<Bytes>) returns (p: Params)
    ensures p == Params(ValuesOf(Cap(sub, args)), TrailingOf(Cap(sub, args)))
  {
    hide CapSubBytes;
    p := Push(Params([], false), CapSubBytes(sub));
    p := PushAll(p, args);
    p := PromoteLastToTrailingIfNeeded(p);
  }

  method ToParams(c: Command) returns (p: Params)
    ensures p == Params(ValuesOf(c), TrailingOf(c))
  {
    hide CapSubBytes, Join;
    p := Params([], false);
    match c {
      case Cap(sub, args) =>
        p := CapParams(sub, args);
      case Nick(nick) =>
        p := Push(p, nick);
      case User(user, mode, realname) =>
        p := PushTrailing(Push(Push(Push(p, user), mode), STAR), realname);
      case Pass(password) =>
        p := Push(p, password);
      case Authenticate(payload) =>
        p := Push(p, payload);
      case Quit(reason) =>
        if reason.Some? {
          p := PushTrailing(p, reason.value);
        }
      case Ping(token, server) =>
        p := BuildTokenServer(token, server);
      case Pong(token, server) =>
        p := BuildTokenServer(token, server);
      case JoinChannels(channels, keys) =>
        var joined := JoinCommas(channels);
        p := Push(p, joined);
        if keys != [] {
          joined := JoinCommas(keys);
          p := Push(p, joined);
        }
      case Part(channels, reason) =>
        var joined := JoinCommas(channels);
        p := Push(p, joined);
        if reason.Some? {
          p := PushTrailing(p, reason.value);
        }
      case Privmsg(targets, text) =>
        var joined := JoinCommas(targets);
        p := PushTrailing(Push(p, joined), text);
      case Notice(targets, text) =>
        var joined := JoinCommas(targets);
        p := PushTrailing(Push(p, joined), text);
      case Topic(channel, topic) =>
        p := Push(p, channel);
        if topic.Some? {
          p := PushTrailing(p, topic.value);
        }
      case Mode(target, changes, args) =>
        p := Push(p, target);
        if changes.Some? {
          p := Push(p, changes.value);
        }
        p := PushAll(p, args);
      case ListChannels(channels, server) =>
        if channels != [] {
          var joined := JoinCommas(channels);
          p := Push(p, joined);
        }
        if server.Some? {
          p := Push(p, server.value);
        }
      case NumericReply(_, params) =>
        p := params;
      case Unknown(_, params) =>
        p := params;
    }
  }

  // ----- Which commands survive the wire -----

  /** The parts say what the parser will say: no part hides another, and no name is taken. */
  predicate Unambiguous(c: Command) {
    match c
    case Cap(sub, _) => sub.CapOther? ==> ParseCapSub(sub.bytes).CapOther?
    case JoinChannels(channels, keys) => channels != [] && FreeOf(COMMA, channels) && FreeOf(COMMA, keys)
    case Part(channels, _) => channels != [] && FreeOf(COMMA, channels)
    case Privmsg(targets, _) => targets != [] && FreeOf(COMMA, targets)
    case Notice(targets, _) => targets != [] && FreeOf(COMMA, targets)
    case Mode(_, changes, args) => changes.None? ==> args == []
    case ListChannels(channels, server) => FreeOf(COMMA, channels) && (channels == [] ==> server.None?)
    case NumericReply(code, params) => WellFormedVerb(Numeric(code)) && WellFormedParams(params, 0)
    case Unknown(verb, params) =>
      WellFormedVerb(Word(verb)) && !IsKeyword(Uppercase(verb)) && WellFormedParams(params, 0)
    case _ => true
  }

  predicate WellFormedCommand(c: Command) {
    Unambiguous(c) && Printable(ValuesOf(c), 0)
  }

  /** Command to message to bytes to message to command. */
  function ThroughTheWire(c: Command): Option<Command> {
    match ParseLine(MessageText(MessageOf(c)))
    case Err(_) => None
    case Ok(m) =>
      match FromMessage(m)
      case Err(_) => None
      case Ok(c') => Some(c')
  }

  lemma {:induction false} PrintableFront(values: seq<Bytes>, k: nat)
    requires Printable(values, 0) && k <= |values|
    ensures Printable(values[..k], 0)
  {
    if 0 < k < |values| {
      MiddleIsPlain(values[k - 1]);
    }
  }

  /** Replacing a middle param that is not the last by another middle param changes nothing. */
  lemma PrintableReplace(values: seq<Bytes>, i: nat, v: Bytes)
    requires Printable(values, 0) && i < |values| && IsMiddle(v)
    ensures Printable(values[i := v], 0)
  {
    MiddleIsPlain(v);
  }

  lemma NamedSubIsMiddle(sub: CapSub)
    requires !sub.CapOther?
    ensures IsMiddle(CapSubBytes(sub))
  {
  }

  lemma Fronts(v: seq<Bytes>)
    ensures v[..0] == [] && v[..|v|] == v
    ensures |v| >= 1 ==> v[..1] == [v[0]] && [v[0]] + [] == [v[0]]
    ensures |v| >= 2 ==> v[..2] == [v[0], v[1]] && [v[0]] + [v[1]] == [v[0], v[1]]
    ensures |v| >= 2 ==> [v[0]] + [v[1]] + v[2..] == v
    ensures |v| >= 1 ==> [v[0]] + [] + [] == [v[0]]
    ensures |v| == 2 ==> [v[0]] + [v[1]] + [] == v
  {
  }

  /** The values of the command are the first of v. */
  predicate PrintsFront(c: Command, v: seq<Bytes>) {
    |ValuesOf(c)| <= |v| && ValuesOf(c) == v[..|ValuesOf(c)|]
  }

  /** The params a parsed command prints: the ones it was parsed from, but for CAP, USER and unused extra params. */
  lemma ValuesOfMeaning(word: Bytes, params: Params)
    requires FromWord(word, params).Ok?
    ensures var c := FromWord(word, params).value;
            var v := params.values;
            if c.User? then |v| >= 4 && ValuesOf(c) == [v[0], v[1], STAR, v[3]]
            else if c.Cap? then v != [] && ValuesOf(c) == v[0 := CapSubBytes(ParseCapSub(v[0]))]
            else PrintsFront(c, v)
  {
    hide Split, Join, Uppercase, ParseCapSub, CapSubBytes, IsKeyword, Required, ValuesOf, PrintsFront;
    var v := params.values;
    RequiredTable();
    var c := FromWord(word, params).value;
    if c.User? {
      UserPrints(c);
    } else if c.Cap? {
      CapPrints(c, v);
    } else if c.Mode? {
      ModePrintsFront(c, v);
    } else if c.JoinChannels? || c.Part? || c.Privmsg? || c.Notice? || c.ListChannels? {
      ListPrintsFront(c, v);
    } else {
      PlainPrintsFront(c, v);
    }
  }

  lemma UserPrints(c: Command)
    requires c.User?
    ensures ValuesOf(c) == [c.user, c.mode, STAR, c.realname]
  {
  }

  lemma CapPrints(c: Command, v: seq<Bytes>)
    requires v != [] && c == Cap(ParseCapSub(v[0]), v[1..])
    ensures ValuesOf(c) == v[0 := CapSubBytes(ParseCapSub(v[0]))]
  {
    hide ParseCapSub, CapSubBytes;
  }

  lemma ModePrintsFront(c: Command, v: seq<Bytes>)
    requires v != [] && c == Mode(v[0], Get(v, 1), if |v| > 2 then v[2..] else [])
    ensures PrintsFront(c, v)
  {
    Fronts(v);
  }

  lemma ListPrintsFront(c: Command, v: seq<Bytes>)
    requires c == ListChannels([], None) || v != []
    requires match c
             case JoinChannels(channels, keys) =>
               channels == Split(COMMA, v[0]) && keys == if |v| > 1 then Split(COMMA, v[1]) else []
             case Part(channels, reason) => channels == Split(COMMA, v[0]) && reason == Get(v, 1)
             case Privmsg(targets, text) => |v| > 1 && targets == Split(COMMA, v[0]) && text == v[1]
             case Notice(targets, text) => |v| > 1 && targets == Split(COMMA, v[0]) && text == v[1]
             case ListChannels(channels, server) => v != [] ==> channels == Split(COMMA, v[0]) && server == Get(v, 1)
             case _ => false
    ensures PrintsFront(c, v)
  {
    hide Split, Join;
    Fronts(v);
    if |v| > 0 {
      SplitMeaning(v[0]);
    }
    if |v| > 1 {
      SplitMeaning(v[1]);
    }
  }

  lemma PlainPrintsFront(c: Command, v: seq<Bytes>)
    requires match c
             case Nick(nick) => v != [] && nick == v[0]
             case Pass(password) => v != [] && password == v[0]
             case Authenticate(payload) => v != [] && payload == v[0]
             case Quit(reason) => reason == Get(v, 0)
             case Ping(token, server) => v != [] && token == v[0] && server == Get(v, 1)
             case Pong(token, server) => v != [] && token == v[0] && server == Get(v, 1)
             case Topic(channel, topic) => v != [] && channel == v[0] && topic == Get(v, 1)
             case Unknown(_, params) => params.values == v
             case _ => false
    ensures PrintsFront(c, v)
  {
    Fronts(v);
  }

  lemma MeaningIsUnambiguous(word: Bytes, params: Params)
    requires FromWord(word, params).Ok? && WellFormedVerb(Word(word)) && WellFormedParams(params, 0)
    ensures Unambiguous(FromWord(word, params).value)
  {
    hide Split, Join, Uppercase, ParseCapSub, CapSubBytes, FreeOf, WellFormedVerb, WellFormedParams, Required;
    var v := params.values;
    RequiredTable();
    if |v| > 0 {
      SplitMeaning(v[0]);
      if ParseCapSub(v[0]).CapOther? {
        OtherKeepsItsBytes(v[0]);
      }
    }
    if |v| > 1 {
      SplitMeaning(v[1]);
    }
    NoItemsAreCommaFree();
  }

  lemma NoItemsAreCommaFree()
    ensures FreeOf(COMMA, [])
  {
  }

  /** Whatever a message with a well-formed verb and params means survives the wire as a command. */
  lemma MeaningIsWellFormed(m: Message)
    requires WellFormedVerb(m.verb) && WellFormedParams(m.params, 0) && FromMessage(m).Ok?
    ensures WellFormedCommand(FromMessage(m).value)
  {
    hide FromWord, Printable, ValuesOf, Unambiguous, ParseCapSub, CapSubBytes, WellFormedVerb, ReadAsTrailing;
    if m.verb.Word? {
      var v := m.params.values;
      var c := FromMessage(m).value;
      MeaningIsUnambiguous(m.verb.word, m.params);
      ValuesOfMeaning(m.verb.word, m.params);
      if c.User? {
        UserIsPrintable(v);
      } else if c.Cap? {
        CapIsPrintable(v);
      } else {
        PrintableFront(v, |ValuesOf(c)|);
      }
    } else {
      NumericIsWellFormed(m.verb.code, m.params);
    }
  }

  lemma NumericIsWellFormed(code: u16, params: Params)
    requires WellFormedVerb(Numeric(code)) && WellFormedParams(params, 0)
    ensures WellFormedCommand(NumericReply(code, params))
  {
  }

  lemma CapIsPrintable(v: seq<Bytes>)
    requires v != [] && Printable(v, 0)
    ensures Printable(v[0 := CapSubBytes(ParseCapSub(v[0]))], 0)
  {
    hide Printable, ParseCapSub, CapSubBytes;
    if ParseCapSub(v[0]).CapOther? {
      OtherKeepsItsBytes(v[0]);
      assert v[0 := v[0]] == v;
    } else {
      NamedSubIsMiddle(ParseCapSub(v[0]));
      PrintableReplace(v, 0, CapSubBytes(ParseCapSub(v[0])));
    }
  }

  lemma OtherKeepsItsBytes(bytes: Bytes)
    requires ParseCapSub(bytes).CapOther?
    ensures CapSubBytes(ParseCapSub(bytes)) == bytes && ParseCapSub(bytes) == CapOther(bytes)
  {
  }

  lemma SplitMeaning(s: Bytes)
    ensures Join(COMMA, Split(COMMA, s)) == s && FreeOf(COMMA, Split(COMMA, s)) && Split(COMMA, s) != []
  {
    JoinInvertsSplit(COMMA, s);
    SplitIsFree(COMMA, s);
  }

  lemma UserIsPrintable(v: seq<Bytes>)
    requires |v| >= 4 && Printable(v, 0)
    ensures Printable([v[0], v[1], STAR, v[3]], 0)
  {
    PrintableFront(v, 4);
    PrintableReplace(v[..4], 2, STAR);
    assert v[..4][2 := STAR] == [v[0], v[1], STAR, v[3]];
  }

  lemma KeywordVerbs(c: Command)
    requires !c.NumericReply? && !c.Unknown?
    ensures VerbOf(c).Word? && Uppercase(VerbOf(c).word) == VerbOf(c).word && WellFormedVerb(VerbOf(c))
  {
  }

  /** A well-formed command is what the params it prints mean, whatever flag they are read with. */
  lemma PrintedParamsMean(c: Command, trailing: bool)
    requires Unambiguous(c) && !c.NumericReply? && !c.Unknown?
    ensures FromWord(VerbOf(c).word, Params(ValuesOf(c), trailing)) == Ok(c)
  {
    hide Split, Join, Uppercase, ParseCapSub, CapSubBytes, FreeOf, FromWord, ValuesOf;
    if HasList(c) {
      PrintedListsMean(c, trailing);
    } else {
      PrintedPartsMean(c, trailing);
    }
  }

  /** The commands with a comma-separated list. */
  predicate HasList(c: Command) {
    c.JoinChannels? || c.Part? || c.Privmsg? || c.Notice? || c.ListChannels?
  }

  lemma PrintedListsMean(c: Command, trailing: bool)
    requires Unambiguous(c) && HasList(c)
    ensures FromWord(VerbOf(c).word, Params(ValuesOf(c), trailing)) == Ok(c)
  {
    hide Split, Join, Uppercase, ParseCapSub, CapSubBytes, FreeOf;
    KeywordVerbs(c);
    match c {
      case JoinChannels(channels, keys) =>
        SplitInvertsJoin(COMMA, channels);
        SplitInvertsJoin(COMMA, keys);
      case Part(channels, _) =>
        SplitInvertsJoin(COMMA, channels);
      case Privmsg(targets, _) =>
        SplitInvertsJoin(COMMA, targets);
      case Notice(targets, _) =>
        SplitInvertsJoin(COMMA, targets);
      case ListChannels(channels, _) =>
        SplitInvertsJoin(COMMA, channels);
    }
  }

  lemma PrintedPartsMean(c: Command, trailing: bool)
    requires Unambiguous(c) && !HasList(c) && !c.NumericReply? && !c.Unknown?
    ensures FromWord(VerbOf(c).word, Params(ValuesOf(c), trailing)) == Ok(c)
  {
    hide Split, Join, Uppercase, ParseCapSub, CapSubBytes, FreeOf;
    KeywordVerbs(c);
    match c {
      case Cap(sub, args) =>
        PrintedSubMeans(sub);
        assert ValuesOf(c)[1..] == args;
      case Mode(_, _, args) =>
        assert |ValuesOf(c)| > 2 ==> ValuesOf(c)[2..] == args;
      case _ =>
    }
  }

  lemma PrintedSubMeans(sub: CapSub)
    requires sub.CapOther? ==> ParseCapSub(sub.bytes).CapOther?
    ensures ParseCapSub(CapSubBytes(sub)) == sub
  {
    if !sub.CapOther? {
      assert Uppercase(CapSubBytes(sub)) == CapSubBytes(sub);
    }
  }

  lemma WellFormedSurvives(c: Command)
    requires WellFormedCommand(c)
    ensures ThroughTheWire(c) == Some(c)
  {
    hide MessageText, ParseLine, FromMessage, MessageOf, AsRead, WellFormedCommand;
    PrintableCommand(c);
    PrintedLineIsRead(MessageOf(c));
    ReadBackMeans(c);
  }

  /** The message the parser gives back for a command means that command. */
  lemma ReadBackMeans(c: Command)
    requires WellFormedCommand(c)
    ensures FromMessage(AsRead(MessageOf(c))) == Ok(c)
  {
    hide FromWord, ValuesOf, VerbOf, TrailingOf, Uppercase;
    if c.NumericReply? || c.Unknown? {
      RawCommandMeans(c);
    } else {
      KeywordVerbs(c);
      PrintedParamsMean(c, AsRead(MessageOf(c)).params.trailing);
    }
  }

  lemma PrintableCommand(c: Command)
    requires WellFormedCommand(c)
    ensures PrintableMessage(MessageOf(c))
  {
    hide ValuesOf, Uppercase, Printable, ReadAsTrailing, WellFormedVerb, TrailingOf;
    if !c.NumericReply? && !c.Unknown? {
      KeywordVerbs(c);
    }
  }

  lemma RawCommandMeans(c: Command)
    requires WellFormedCommand(c) && (c.NumericReply? || c.Unknown?)
    ensures FromMessage(AsRead(MessageOf(c))) == Ok(c)
  {
    hide Uppercase, Printable, ReadAsTrailing, WellFormedVerb;
  }

  /** Exactly the well-formed commands survive. */
  lemma CommandRoundTrip(c: Command)
    ensures ThroughTheWire(c) == Some(c) <==> WellFormedCommand(c)
  {
    hide MessageText, ParseLine, FromMessage, WellFormedCommand, MessageOf, WellFormedVerb, WellFormedParams;
    if WellFormedCommand(c) {
      WellFormedSurvives(c);
    } else if ThroughTheWire(c) == Some(c) {
      var s := MessageText(MessageOf(c));
      ParsedVerbAndParams(s);
      MeaningIsWellFormed(ParseLine(s).value);
      assert false;
    }
  }

  /** The letter case of a keyword changes nothing; a word that is none is kept as it is. */
  lemma KeywordsInAnyCase(a: Bytes, b: Bytes, params: Params)
    requires SameButCase(a, b)
    ensures IsKeyword(Uppercase(a)) ==> FromWord(a, params) == FromWord(b, params)
    ensures !IsKeyword(Uppercase(a)) ==> FromWord(a, params) == Ok(Unknown(a, params))
  {
    hide Uppercase, Split, ParseCapSub;
    UppercaseForgetsCase(a, b);
  }

  lemma CapSubsInAnyCase(a: Bytes, b: Bytes)
    requires SameButCase(a, b)
    ensures ParseCapSub(a) == if ParseCapSub(b).CapOther? then CapOther(a) else ParseCapSub(b)
  {
    hide Uppercase;
    UppercaseForgetsCase(a, b);
  }

  /** A command of a name with as few values as there can be. */
  lemma FewestValues(upper: Bytes) returns (c: Command)
    requires IsKeyword(upper)
    ensures Unambiguous(c) && VerbOf(c) == Word(upper) && |ValuesOf(c)| == Required(upper)
  {
    hide Unambiguous, VerbOf, ValuesOf, Required;
    if upper == JOIN || upper == PART || upper == PRIVMSG || upper == NOTICE {
      c := FewestInLists(upper);
    } else if upper == USER || upper == QUIT || upper == LIST {
      c := FewestOfOthers(upper);
    } else {
      c := OneValue(upper);
    }
  }

  lemma FewestInLists(upper: Bytes) returns (c: Command)
    requires upper == JOIN || upper == PART || upper == PRIVMSG || upper == NOTICE
    ensures Unambiguous(c) && VerbOf(c) == Word(upper) && |ValuesOf(c)| == Required(upper)
  {
    hide Uppercase, Join, ParseCapSub, IsKeyword, Required;
    RequiredTable();
    c := if upper == JOIN then JoinChannels([[]], []) else if upper == PART then Part([[]], None)
         else if upper == PRIVMSG then Privmsg([[]], []) else Notice([[]], []);
  }

  lemma FewestOfOthers(upper: Bytes) returns (c: Command)
    requires upper == USER || upper == QUIT || upper == LIST
    ensures Unambiguous(c) && VerbOf(c) == Word(upper) && |ValuesOf(c)| == Required(upper)
  {
    hide Uppercase, Join, ParseCapSub, IsKeyword, Required;
    RequiredTable();
    ReasonsAndLists();
    c := if upper == USER then User([], [], []) else if upper == QUIT then Quit(None) else ListChannels([], None);
  }

  lemma OneValue(upper: Bytes) returns (c: Command)
    requires upper == CAP || upper == NICK || upper == PASS || upper == AUTHENTICATE || upper == PING || upper == PONG
             || upper == TOPIC || upper == MODE
    ensures Unambiguous(c) && VerbOf(c) == Word(upper) && |ValuesOf(c)| == Required(upper)
  {
    hide Uppercase, Join, ParseCapSub, IsKeyword, Required;
    RequiredTable();
    c := if upper == CAP then Cap(CapEnd, []) else if upper == NICK then Nick([]) else if upper == PASS then Pass([])
         else if upper == AUTHENTICATE then Authenticate([]) else if upper == PING then Ping([], None)
         else if upper == PONG then Pong([], None) else if upper == TOPIC then Topic([], None)
         else Mode([], None, []);
  }

  lemma ReasonsAndLists()
    ensures Required(QUIT) == 0 && Required(LIST) == 0
  {
  }

  /** No unambiguous command prints fewer values than its name requires. */
  lemma NeverFewerValues(c: Command)
    requires Unambiguous(c) && VerbOf(c).Word? && IsKeyword(VerbOf(c).word)
    ensures |ValuesOf(c)| >= Required(VerbOf(c).word)
  {
    hide Join, ParseCapSub, CapSubBytes, Uppercase;
    RequiredTable();
    ReasonsAndLists();
    if c.Unknown? {
      KeywordIsUpper(c.verb);
    }
  }

  lemma KeywordIsUpper(word: Bytes)
    requires IsKeyword(word)
    ensures Uppercase(word) == word
  {
  }

  /** A keyword is refused exactly when it comes with fewer params than any command of that name has; the error says how
      many that would be. */
  lemma RefusedIffTooFew(word: Bytes, params: Params)
    requires IsKeyword(Uppercase(word))
    ensures FromWord(word, params).Ok? <==>
            exists c :: Unambiguous(c) && VerbOf(c) == Word(Uppercase(word)) && |ValuesOf(c)| <= |params.values|
    ensures FromWord(word, params).Err? ==>
              var e := FromWord(word, params).error;
              e.command == Uppercase(word) && e.got == |params.values| < e.required
              && exists c :: Unambiguous(c) && VerbOf(c) == Word(Uppercase(word)) && |ValuesOf(c)| == e.required
  {
    hide Uppercase, Split, ParseCapSub, Unambiguous, VerbOf, ValuesOf, Required, IsKeyword;
    var least := FewestValues(Uppercase(word));
    if c :| Unambiguous(c) && VerbOf(c) == Word(Uppercase(word)) && |ValuesOf(c)| <= |params.values| {
      NeverFewerValues(c);
    }
    WordIsRefused(word, params);
  }

  lemma WordIsRefused(word: Bytes, params: Params)
    ensures FromWord(word, params).Err? <==> |params.values| < Required(Uppercase(word))
    ensures FromWord(word, params).Err? ==>
              FromWord(word, params).error == MissingParam(Uppercase(word), Required(Uppercase(word)), |params.values|)
  {
    hide Uppercase, Split, ParseCapSub;
  }

  /** A line whose meaning is a command: writing that command and reading it back changes nothing. */
  lemma ReadCommandSurvives(line: Bytes)
    requires ParseLine(line).Ok? && FromMessage(ParseLine(line).value).Ok?
    ensures ThroughTheWire(FromMessage(ParseLine(line).value).value) == Some(FromMessage(ParseLine(line).value).value)
  {
    hide ParseLine, FromMessage, WellFormedCommand, ThroughTheWire, WellFormedVerb, WellFormedParams;
    ParsedVerbAndParams(line);
    MeaningIsWellFormed(ParseLine(line).value);
    CommandRoundTrip(FromMessage(ParseLine(line).value).value);
  }
}
