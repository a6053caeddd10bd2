/** The client's picture of its channels, and its agreement with the server that feeds it. */
module ClientState {
  import opened Wrappers
  import opened Octets
  import opened Separated
  import opened Prefixes
  import opened Verbs
  import opened ParamLists
  import opened Messages
  import opened Commands

  datatype ChannelState = ChannelState(name: Bytes, topic: Option<Bytes>, nicks: seq<Bytes>)

  type Channels = map<Bytes, ChannelState>

  datatype Picture = Picture(nick: Option<Bytes>, channels: Channels, serverName: Option<Bytes>)

  // ----- Nick lists -----

  function AddNick(nicks: seq<Bytes>, nick: Bytes): seq<Bytes> {
    if nick in nicks then nicks else nicks + [nick]
  }

  function WithoutNick(nicks: seq<Bytes>, nick: Bytes): seq<Bytes> {
    if nicks == [] then []
    else if nicks[0] == nick then WithoutNick(nicks[1..], nick)
    else [nicks[0]] + WithoutNick(nicks[1..], nick)
  }

  function Renamed(nicks: seq<Bytes>, was: Bytes, now: Bytes): seq<Bytes> {
    seq(|nicks|, i requires 0 <= i < |nicks| => if nicks[i] == was then now else nicks[i])
  }

  predicate StartsNick(b: byte) {
    IsLetter(b) || IsDigit(b)
    // the special characters a nick may start with: [ ] \ ^ { } | _ - `
    || b == 91 || b == 93 || b == 92 || b == 94 || b == 123 || b == 125 || b == 124 || b == 95 || b == 45 || b == 96
  }

  predicate NotNickStart(b: byte) {
    !StartsNick(b)
  }

  function StripNickPrefix(nick: Bytes): Bytes {
    var start := Span(nick, 0, NotNickStart);
    if start == |nick| then nick else nick[start..]
  }

  function AddListed(nicks: seq<Bytes>, words: seq<Bytes>): seq<Bytes> {
    if words == [] then nicks
    else
      var before := AddListed(nicks, words[..|words| - 1]);
      var word := words[|words| - 1];
      if word == [] then before else AddNick(before, StripNickPrefix(word))
  }

  // ----- What each message does to the picture -----

  function ExtractNick(prefix: Option<Prefix>): Bytes {
    match prefix
    case Some(User(nick, _, _)) => nick
    case Some(Server(name)) => name
    case None => []
  }

  function JoinOne(channels: Channels, who: Bytes, isSelf: bool, ch: Bytes): Channels {
    var known := if isSelf && ch !in channels then channels[ch := ChannelState(ch, None, [])] else channels;
    if ch in known then known[ch := known[ch].(nicks := AddNick(known[ch].nicks, who))] else known
  }

  function JoinAllOf(channels: Channels, who: Bytes, isSelf: bool, chs: seq<Bytes>): Channels {
    if chs == [] then channels
    else JoinOne(JoinAllOf(channels, who, isSelf, chs[..|chs| - 1]), who, isSelf, chs[|chs| - 1])
  }

  function PartOne(channels: Channels, who: Bytes, isSelf: bool, ch: Bytes): Channels {
    if isSelf then channels - {ch}
    else if ch in channels then channels[ch := channels[ch].(nicks := WithoutNick(channels[ch].nicks, who))]
    else channels
  }

  function PartAllOf(channels: Channels, who: Bytes, isSelf: bool, chs: seq<Bytes>): Channels {
    if chs == [] then channels
    else PartOne(PartAllOf(channels, who, isSelf, chs[..|chs| - 1]), who, isSelf, chs[|chs| - 1])
  }

  function RenameIn(c: ChannelState, was: Bytes, now: Bytes): ChannelState {
    c.(nicks := Renamed(c.nicks, was, now))
  }

  function RemoveFrom(c: ChannelState, who: Bytes): ChannelState {
    c.(nicks := WithoutNick(c.nicks, who))
  }

  function SetTopic(channels: Channels, ch: Bytes, topic: Option<Bytes>): Channels {
    if ch in channels then channels[ch := channels[ch].(topic := topic)] else channels
  }

  predicate IsMe(p: Picture, nick: Bytes) {
    p.nick == Some(nick)
  }

  function Applied(p: Picture, msg: Message): (bool, Picture) {
    match FromMessage(msg)
    case Err(_) => (false, p)
    case Ok(command) =>
      var who := ExtractNick(msg.prefix);
      match command
      case JoinChannels(chs, _) => (true, p.(channels := JoinAllOf(p.channels, who, IsMe(p, who), chs)))
      case Part(chs, _) => (true, p.(channels := PartAllOf(p.channels, who, IsMe(p, who), chs)))
      case Nick(now) =>
        (true, p.(nick := if IsMe(p, who) then Some(now) else p.nick,
                  channels := map ch | ch in p.channels :: RenameIn(p.channels[ch], who, now)))
      case Topic(ch, topic) => (true, p.(channels := SetTopic(p.channels, ch, topic)))
      case Quit(_) =>
        (true, p.(channels := if IsMe(p, who) then map[]
                              else map ch | ch in p.channels :: RemoveFrom(p.channels[ch], who)))
      case NumericReply(code, params) =>
        if code == 1 then (true, Welcomed(p, msg.prefix, params.values))
        else if code == 332 then (true, p.(channels := TopicReply(p.channels, params.values)))
        else if code == 353 then (true, p.(channels := NamesReply(p.channels, params.values)))
        else (false, p)
      case _ => (false, p)
  }

  function Welcomed(p: Picture, prefix: Option<Prefix>, values: seq<Bytes>): Picture {
    p.(nick := if values != [] then Some(values[0]) else p.nick,
       serverName := if prefix.Some? && prefix.value.Server? then Some(prefix.value.name) else p.serverName)
  }

  function TopicReply(channels: Channels, values: seq<Bytes>): Channels {
    if |values| > 2 then (if values[1] in channels then SetTopic(channels, values[1], Some(values[2])) else channels)
    else channels
  }

  function NamesReply(channels: Channels, values: seq<Bytes>): Channels {
    if |values| > 3 && values[2] in channels then
      var c := channels[values[2]];
      channels[values[2] := c.(nicks := AddListed(c.nicks, Split(SPACE, values[3])))]
    else channels
  }

  class NetworkState {
    var nick: Option<Bytes>
    var channels: Channels
    var serverName: Option<Bytes>

    function Current(): Picture
      reads this
    {
      Picture(nick, channels, serverName)
    }

    constructor ()
      ensures Current() == Picture(None, map[], None)
    {
      nick := None;
      channels := map[];
      serverName := None;
    }

    method Apply(msg: Message) returns (handled: bool)
      modifies this
      ensures (handled, Current()) == Applied(old(Current()), msg)
    {
      hide FromMessage;
      var command := FromMessage(msg);
      if command.Err? {
        return false;
      }
      match command.value {
        case JoinChannels(chs, _) =>
          ApplyJoin(msg, chs);
          handled := true;
        case Part(chs, _) =>
          ApplyPart(msg, chs);
          handled := true;
        case Nick(newNick) =>
          ApplyNick(msg, newNick);
          handled := true;
        case Topic(ch, topic) =>
          channels := SetTopic(channels, ch, topic);
          handled := true;
        case Quit(_) =>
          ApplyQuit(msg);
          handled := true;
        case NumericReply(code, params) =>
          if code == 1 {
            ApplyWelcome(msg, params);
            handled := true;
          } else if code == 332 {
            channels := TopicReply(channels, params.values);
            handled := true;
          } else if code == 353 {
            ApplyNamReply(params);
            handled := true;
          } else {
            handled := false;
          }
        case _ =>
          handled := false;
      }
    }

    method ApplyJoin(msg: Message, chs: seq<Bytes>)
      modifies `channels
      ensures channels == JoinAllOf(old(channels), ExtractNick(msg.prefix),
                                    IsMe(old(Current()), ExtractNick(msg.prefix)), chs)
    {
      var who := ExtractNick(msg.prefix);
      var isSelf := nick == Some(who);
      for i := 0 to |chs|
        invariant channels == JoinAllOf(old(channels), who, isSelf, chs[..i])
      {
        assert chs[..i + 1][..i] == chs[..i];
        var ch := chs[i];
        if isSelf && ch !in channels {
          channels := channels[ch := ChannelState(ch, None, [])];
        }
        if ch in channels {
          var state := channels[ch];
          if who !in state.nicks {
            state := state.(nicks := state.nicks + [who]);
          }
          channels := channels[ch := state];
        }
      }
      assert chs[..|chs|] == chs;
    }

    method ApplyPart(msg: Message, chs: seq<Bytes>)
      modifies `channels
      ensures channels == PartAllOf(old(channels), ExtractNick(msg.prefix),
                                    IsMe(old(Current()), ExtractNick(msg.prefix)), chs)
    {
      var who := ExtractNick(msg.prefix);
      var isSelf := nick == Some(who);
      for i := 0 to |chs|
        invariant channels == PartAllOf(old(channels), who, isSelf, chs[..i])
      {
        assert chs[..i + 1][..i] == chs[..i];
        var ch := chs[i];
        if isSelf {
          channels := channels - {ch};
        } else if ch in channels {
          var nicks := RetainOthers(channels[ch].nicks, who);
          channels := channels[ch := channels[ch].(nicks := nicks)];
        }
      }
      assert chs[..|chs|] == chs;
    }

    method ApplyNick(msg: Message, newNick: Bytes)
      modifies this
      ensures nick == if IsMe(old(Current()), ExtractNick(msg.prefix)) then Some(newNick) else old(nick)
      ensures channels == map ch | ch in old(channels) :: RenameIn(old(channels)[ch], ExtractNick(msg.prefix), newNick)
      ensures serverName == old(serverName)
    {
      var oldNick := ExtractNick(msg.prefix);
      if nick == Some(oldNick) {
        nick := Some(newNick);
      }
      var todo := channels.Keys;
      while todo != {}
        invariant nick == if IsMe(old(Current()), oldNick) then Some(newNick) else old(nick)
        invariant serverName == old(serverName)
        invariant todo <= channels.Keys == old(channels).Keys
        invariant forall ch :: ch in channels ==>
                    channels[ch] == if ch in todo then old(channels)[ch]
                                    else RenameIn(old(channels)[ch], oldNick, newNick)
        decreases |todo|
      {
        var ch :| ch in todo;
        var nicks := RenameAll(channels[ch].nicks, oldNick, newNick);
        channels := channels[ch := channels[ch].(nicks := nicks)];
        todo := todo - {ch};
      }
    }

    method ApplyQuit(msg: Message)
      modifies `channels
      ensures channels == if IsMe(old(Current()), ExtractNick(msg.prefix)) then map[]
                          else map ch | ch in old(channels) :: RemoveFrom(old(channels)[ch], ExtractNick(msg.prefix))
    {
      var who := ExtractNick(msg.prefix);
      if nick == Some(who) {
        channels := map[];
        return;
      }
      var todo := channels.Keys;
      while todo != {}
        invariant todo <= channels.Keys == old(channels).Keys
        invariant forall ch :: ch in channels ==>
                    channels[ch] == if ch in todo then old(channels)[ch] else RemoveFrom(old(channels)[ch], who)
        decreases |todo|
      {
        var ch :| ch in todo;
        var nicks := RetainOthers(channels[ch].nicks, who);
        channels := channels[ch := channels[ch].(nicks := nicks)];
        todo := todo - {ch};
      }
    }

    method ApplyWelcome(msg: Message, params: Params)
      modifies this
      ensures Current() == Welcomed(old(Current()), msg.prefix, params.values)
    {
      if params.values != [] {
        nick := Some(params.values[0]);
      }
      if msg.prefix.Some? && msg.prefix.value.Server? {
        serverName := Some(msg.prefix.value.name);
      }
    }

    method ApplyNamReply(params: Params)
      modifies `channels
      ensures channels == NamesReply(old(channels), params.values)
    {
      if |params.values| > 3 && params.values[2] in channels {
        var state := channels[params.values[2]];
        var words := SplitAll(SPACE, params.values[3]);
        var nicks := state.nicks;
        for i := 0 to |words|
          invariant nicks == AddListed(state.nicks, words[..i])
        {
          assert words[..i + 1][..i] == words[..i];
          if words[i] == [] {
            continue;
          }
          var nick' := StripNickPrefix(words[i]);
          if nick' !in nicks {
            nicks := nicks + [nick'];
          }
        }
        assert words[..|words|] == words;
        channels := channels[params.values[2] := state.(nicks := nicks)];
      }
    }
  }

  method RetainOthers(nicks: seq<Bytes>, who: Bytes) returns (kept: seq<Bytes>)
    ensures kept == WithoutNick(nicks, who)
  {
    kept := [];
    assert nicks[0..] == nicks;
    for i := 0 to |nicks|
      invariant kept + WithoutNick(nicks[i..], who) == WithoutNick(nicks, who)
    {
      assert nicks[i..][1..] == nicks[i + 1..] && nicks[i..][0] == nicks[i];
      if nicks[i] != who {
        kept := kept + [nicks[i]];
      }
    }
    assert nicks[|nicks|..] == [];
  }

  method RenameAll(nicks: seq<Bytes>, was: Bytes, now: Bytes) returns (out: seq<Bytes>)
    ensures out == Renamed(nicks, was, now)
  {
    out := nicks;
    for i := 0 to |nicks|
      invariant |out| == |nicks|
      invariant forall k :: 0 <= k < i ==> out[k] == if nicks[k] == was then now else nicks[k]
      invariant forall k :: i <= k < |nicks| ==> out[k] == nicks[k]
    {
      if out[i] == was {
        out := out[i := now];
      }
    }
  }

  // ----- A reference server -----

  /** Who is on the server, the client's nick, who is in each channel, and for the client's channels who is in them
      but has not been named to the client yet; the topics, and the client's channels whose topic it has been told since
      it came in; and the name the server gives itself, if it does. */
  datatype Server = Server(users: set<Bytes>, me: Bytes, members: map<Bytes, set<Bytes>>,
                           untold: map<Bytes, set<Bytes>>, topics: map<Bytes, Bytes>, topicTold: set<Bytes>,
                           name: Option<Bytes>)

  function MembersOf(s: Server, ch: Bytes): set<Bytes> {
    if ch in s.members then s.members[ch] else {}
  }

  /** The channels the client is in. */
  predicate InChannel(s: Server, ch: Bytes) {
    s.me in MembersOf(s, ch)
  }

  predicate SharesChannel(s: Server, who: Bytes) {
    exists ch :: ch in s.members && InChannel(s, ch) && who in s.members[ch]
  }

  /** A nick: not empty, without spaces, and starting like one. */
  predicate IsNick(n: Bytes) {
    n != [] && StartsNick(n[0]) && SPACE !in n
  }

  /** One name of a NAMES reply: the member's mode symbols, then the nick. */
  datatype Listed = Listed(symbols: Bytes, nick: Bytes)

  function ListedText(l: Listed): Bytes {
    l.symbols + l.nick
  }

  function NamesText(names: seq<Listed>): Bytes {
    Join(SPACE, seq(|names|, i requires 0 <= i < |names| => ListedText(names[i])))
  }

  predicate IsListing(l: Listed) {
    IsNick(l.nick) && SPACE !in l.symbols && forall k :: 0 <= k < |l.symbols| ==> NotNickStart(l.symbols[k])
  }

  function NicksOf(names: seq<Listed>): set<Bytes> {
    set l | l in names :: l.nick
  }

  /** What happens on the server. The extra params are whatever the message carries besides. */
  datatype Event =
    | Connects(who: Bytes)
    | Joins(who: Bytes, ch: Bytes, extra: seq<Bytes>)
    | Parts(who: Bytes, ch: Bytes, extra: seq<Bytes>)
    | Quits(who: Bytes, extra: seq<Bytes>)
    | Renames(who: Bytes, now: Bytes)
    | Names(ch: Bytes, symbol: Bytes, names: seq<Listed>)
    | SetsTopic(ch: Bytes, topic: Bytes)
    | TellsTopic(ch: Bytes)
    | Says(message: Message)

  /** Messages that are not about membership or topics. */
  predicate IsOther(m: Message) {
    match FromMessage(m)
    case Err(_) => true
    case Ok(c) =>
      match c
      case JoinChannels(_, _) => false
      case Part(_, _) => false
      case Nick(_) => false
      case Quit(_) => false
      case Topic(_, _) => false
      case NumericReply(code, _) => code != 1 && code != 332 && code != 353
      case _ => true
  }

  /** What a consistent server lets happen while the client is on it. */
  predicate Allowed(s: Server, e: Event) {
    s.me in s.users &&
    match e
    case Connects(who) => who !in s.users && IsNick(who)
    case Joins(who, ch, _) => who in s.users && who !in MembersOf(s, ch) && COMMA !in ch
    case Parts(who, ch, _) => who in MembersOf(s, ch) && COMMA !in ch
    case Quits(who, _) => who in s.users
    case Renames(who, now) => who in s.users && now !in s.users && IsNick(now)
    case Names(ch, _, names) =>
      names != [] && NicksOf(names) <= MembersOf(s, ch) && forall k :: 0 <= k < |names| ==> IsListing(names[k])
    case SetsTopic(_, _) => true
    case TellsTopic(ch) => ch in s.topics
    case Says(m) => IsOther(m)
  }

  function RenameSet(nicks: set<Bytes>, was: Bytes, now: Bytes): set<Bytes> {
    if was in nicks then nicks - {was} + {now} else nicks
  }

  function After(s: Server, e: Event): Server {
    match e
    case Connects(who) => s.(users := s.users + {who})
    case Joins(who, ch, _) =>
      s.(members := s.members[ch := MembersOf(s, ch) + {who}],
         untold := if who == s.me then s.untold[ch := MembersOf(s, ch)] else s.untold)
    case Parts(who, ch, _) =>
      s.(members := s.members[ch := MembersOf(s, ch) - {who}],
         untold := if who == s.me then s.untold - {ch}
                   else if ch in s.untold then s.untold[ch := s.untold[ch] - {who}] else s.untold,
         topicTold := if who == s.me then s.topicTold - {ch} else s.topicTold)
    case Quits(who, _) =>
      s.(users := s.users - {who},
         members := map ch | ch in s.members :: s.members[ch] - {who},
         untold := if who == s.me then map[] else map ch | ch in s.untold :: s.untold[ch] - {who},
         topicTold := if who == s.me then {} else s.topicTold)
    case Renames(who, now) =>
      s.(users := s.users - {who} + {now},
         me := if who == s.me then now else s.me,
         members := map ch | ch in s.members :: RenameSet(s.members[ch], who, now),
         untold := map ch | ch in s.untold :: RenameSet(s.untold[ch], who, now))
    case Names(ch, _, names) =>
      s.(untold := if ch in s.untold then s.untold[ch := s.untold[ch] - NicksOf(names)] else s.untold)
    case SetsTopic(ch, topic) =>
      s.(topics := s.topics[ch := topic], topicTold := if ch in s.untold then s.topicTold + {ch} else s.topicTold)
    case TellsTopic(ch) => s.(topicTold := if ch in s.untold then s.topicTold + {ch} else s.topicTold)
    case Says(_) => s
  }

  /** Who must be told: the one concerned, and everyone who shares a channel with them. */
  predicate MustTell(s: Server, e: Event) {
    match e
    case Connects(_) => false
    case Joins(who, ch, _) => who == s.me || InChannel(s, ch)
    case Parts(who, ch, _) => InChannel(s, ch)
    case Quits(who, _) => who == s.me || SharesChannel(s, who)
    case Renames(who, _) => who == s.me || SharesChannel(s, who)
    case Names(_, _, _) => true
    case SetsTopic(ch, _) => InChannel(s, ch)
    case TellsTopic(_) => true
    case Says(_) => true
  }

  /** The messages an event may be told with: a user's mask may hold any user and host. */
  ghost predicate Tells(s: Server, e: Event, m: Message) {
    match e
    case Connects(_) => false
    case Joins(who, ch, extra) => FromUser(m, who) && m.verb == Word(JOIN) && m.params.values == [ch] + extra
    case Parts(who, ch, extra) => FromUser(m, who) && m.verb == Word(PART) && m.params.values == [ch] + extra
    case Quits(who, extra) => FromUser(m, who) && m.verb == Word(QUIT) && m.params.values == extra
    case Renames(who, now) => FromUser(m, who) && m.verb == Word(NICK) && m.params.values == [now]
    case Names(ch, symbol, names) => m.verb == Numeric(353) && m.params.values == [s.me, symbol, ch, NamesText(names)]
    case SetsTopic(ch, topic) => m.verb == Word(TOPIC) && m.params.values == [ch, topic]
    case TellsTopic(ch) => ch in s.topics && m.verb == Numeric(332) && m.params.values == [s.me, ch, s.topics[ch]]
    case Says(message) => m == message
  }

  predicate FromUser(m: Message, who: Bytes) {
    m.prefix.Some? && m.prefix.value.User? && m.prefix.value.nick == who
  }

  // ----- Agreement -----

  predicate NoDuplicates(nicks: seq<Bytes>) {
    forall i, j :: 0 <= i < j < |nicks| ==> nicks[i] != nicks[j]
  }

  /** A tracked list: without duplicates, with the client itself, only true members, and all of them but the untold. */
  predicate ListAgrees(nicks: seq<Bytes>, me: Bytes, members: set<Bytes>, untold: set<Bytes>) {
    && NoDuplicates(nicks) && me in nicks
    && (forall n :: n in nicks ==> n in members)
    && (forall n :: n in members ==> n in nicks || n in untold)
  }

  ghost predicate ServerIsConsistent(s: Server) {
    && (forall ch :: ch in s.members ==> s.members[ch] <= s.users)
    && (forall ch :: ch in s.untold <==> InChannel(s, ch))
    && (forall ch :: ch in s.untold ==> s.untold[ch] <= MembersOf(s, ch))
    && s.topicTold <= s.untold.Keys && s.topicTold <= s.topics.Keys
  }

  /** The topic the client knows: the one the channel has, if it was told of it. */
  function KnownTopic(s: Server, ch: Bytes): Option<Bytes> {
    if ch in s.topicTold && ch in s.topics then Some(s.topics[ch]) else None
  }

  predicate Agrees(p: Picture, s: Server) {
    && p.nick == Some(s.me) && p.serverName == s.name
    && p.channels.Keys == s.untold.Keys
    && (forall ch :: ch in p.channels ==> ListAgrees(p.channels[ch].nicks, s.me, MembersOf(s, ch), s.untold[ch]))
    && (forall ch :: ch in p.channels ==> p.channels[ch].topic == KnownTopic(s, ch))
  }

  // ----- Lists under each change -----

  lemma {:induction false} WithoutNickMembers(nicks: seq<Bytes>, who: Bytes)
    ensures forall n :: n in WithoutNick(nicks, who) <==> n in nicks && n != who
    ensures NoDuplicates(nicks) ==> NoDuplicates(WithoutNick(nicks, who))
  {
    if nicks != [] {
      WithoutNickMembers(nicks[1..], who);
      assert forall n :: n in nicks <==> n == nicks[0] || n in nicks[1..];
      if NoDuplicates(nicks) {
        assert nicks[0] !in nicks[1..];
      }
    }
  }

  lemma RenamedMembers(nicks: seq<Bytes>, was: Bytes, now: Bytes)
    requires now !in nicks
    ensures forall n :: n in Renamed(nicks, was, now) <==> (n in nicks && n != was) || (n == now && was in nicks)
    ensures NoDuplicates(nicks) ==> NoDuplicates(Renamed(nicks, was, now))
  {
    var r := Renamed(nicks, was, now);
    forall n
      ensures n in r <==> (n in nicks && n != was) || (n == now && was in nicks)
    {
      if n in nicks && n != was {
        var i :| 0 <= i < |nicks| && nicks[i] == n;
        assert r[i] == n;
      }
      if n == now && was in nicks {
        var i :| 0 <= i < |nicks| && nicks[i] == was;
        assert r[i] == now;
      }
    }
  }

  /** A nick is one of the words, stripped. */
  predicate IsAmong(n: Bytes, words: seq<Bytes>) {
    exists k :: 0 <= k < |words| && n == StripNickPrefix(words[k])
  }

  lemma {:induction false} AddListedMembers(nicks: seq<Bytes>, words: seq<Bytes>)
    requires forall k :: 0 <= k < |words| ==> words[k] != []
    ensures forall n :: n in AddListed(nicks, words) <==> n in nicks || IsAmong(n, words)
    ensures NoDuplicates(nicks) ==> NoDuplicates(AddListed(nicks, words))
  {
    hide StripNickPrefix;
    if words != [] {
      var front, last := words[..|words| - 1], words[|words| - 1];
      AddListedMembers(nicks, front);
      forall n
        ensures n in AddListed(nicks, words) <==> n in nicks || IsAmong(n, words)
      {
        if n in nicks || IsAmong(n, words) {
          if n !in nicks {
            var k :| 0 <= k < |words| && n == StripNickPrefix(words[k]);
            assert k < |front| ==> front[k] == words[k];
          }
        }
        if n in AddListed(nicks, words) && n !in nicks {
          if n in AddListed(nicks, front) {
            var k :| 0 <= k < |front| && n == StripNickPrefix(front[k]);
            assert words[k] == front[k];
          } else {
            assert n == StripNickPrefix(last);
          }
        }
      }
    }
  }

  /** Stripping the symbols of a listed name gives the nick, byte for byte. */
  lemma StrippedIsTheNick(l: Listed)
    requires IsListing(l)
    ensures StripNickPrefix(ListedText(l)) == l.nick && ListedText(l) != [] && SPACE !in ListedText(l)
  {
    var raw := ListedText(l);
    assert raw[|l.symbols|] == l.nick[0];
    SpanIs(raw, 0, |l.symbols|, NotNickStart);
    assert raw[|l.symbols|..] == l.nick;
  }

  lemma NamesAreRead(nicks: seq<Bytes>, names: seq<Listed>)
    requires names != [] && forall k :: 0 <= k < |names| ==> IsListing(names[k])
    ensures var r := AddListed(nicks, Split(SPACE, NamesText(names)));
            && (forall n :: n in r <==> n in nicks || n in NicksOf(names))
            && (NoDuplicates(nicks) ==> NoDuplicates(r))
  {
    hide StripNickPrefix, ListedText, Split, Join, IsListing, NoDuplicates;
    var words := seq(|names|, i requires 0 <= i < |names| => ListedText(names[i]));
    forall k | 0 <= k < |names|
      ensures words[k] != [] && SPACE !in words[k] && StripNickPrefix(words[k]) == names[k].nick
    {
      StrippedIsTheNick(names[k]);
    }
    SplitInvertsJoin(SPACE, words);
    AddListedMembers(nicks, words);
    var r := AddListed(nicks, words);
    forall n
      ensures n in r <==> n in nicks || n in NicksOf(names)
    {
      if n in NicksOf(names) {
        var l :| l in names && l.nick == n;
        var k :| 0 <= k < |names| && names[k] == l;
        assert n == StripNickPrefix(words[k]);
      }
      if n in r && n !in nicks {
        var k :| 0 <= k < |words| && n == StripNickPrefix(words[k]);
        assert names[k] in names && names[k].nick == n;
      }
    }
  }

  // ----- What the messages mean -----

  lemma MembershipVerbs()
    ensures Uppercase(JOIN) == JOIN && Uppercase(PART) == PART && Uppercase(QUIT) == QUIT && Uppercase(NICK) == NICK
    ensures Uppercase(TOPIC) == TOPIC
    ensures Required(JOIN) == 1 && Required(PART) == 1 && Required(QUIT) == 0 && Required(NICK) == 1
    ensures Required(TOPIC) == 1
  {
  }

  lemma OneChannel(ch: Bytes)
    requires COMMA !in ch
    ensures Split(COMMA, ch) == [ch]
  {
    LastItem(COMMA, ch);
  }

  /** The picture after each kind of message, in terms of what happened. */
  lemma MessageMeans(p: Picture, s: Server, e: Event, m: Message)
    requires Allowed(s, e) && Tells(s, e, m) && !e.Says? && !e.SetsTopic? && !e.TellsTopic?
    ensures var p' := Applied(p, m).1;
      && (e.Joins? ==> p' == p.(channels := JoinOne(p.channels, e.who, IsMe(p, e.who), e.ch)))
      && (e.Parts? ==> p' == p.(channels := PartOne(p.channels, e.who, IsMe(p, e.who), e.ch)))
      && (e.Quits? ==> p' == p.(channels := if IsMe(p, e.who) then map[]
                                            else map ch | ch in p.channels :: RemoveFrom(p.channels[ch], e.who)))
      && (e.Renames? ==> p' == p.(nick := if IsMe(p, e.who) then Some(e.now) else p.nick,
                                  channels := map ch | ch in p.channels :: RenameIn(p.channels[ch], e.who, e.now)))
      && (e.Names? ==> p' == p.(channels := NamesReply(p.channels, [s.me, e.symbol, e.ch, NamesText(e.names)])))
  {
    hide Uppercase, Required, JoinOne, PartOne, Split, NamesText, NamesReply, RemoveFrom, RenameIn;
    MembershipVerbs();
    if e.Joins? || e.Parts? {
      OneChannel(e.ch);
      OnlyOne(p.channels, e.who, IsMe(p, e.who), e.ch);
    }
  }

  lemma TopicMessageMeans(p: Picture, s: Server, e: Event, m: Message)
    requires Allowed(s, e) && Tells(s, e, m) && (e.SetsTopic? || e.TellsTopic?)
    ensures e.TellsTopic? ==> e.ch in s.topics
    ensures Applied(p, m).1 ==
            p.(channels := SetTopic(p.channels, e.ch, Some(if e.SetsTopic? then e.topic else s.topics[e.ch])))
  {
    hide Uppercase, Required, Split;
    MembershipVerbs();
  }

  lemma OnlyOne(channels: Channels, who: Bytes, isSelf: bool, ch: Bytes)
    ensures JoinAllOf(channels, who, isSelf, [ch]) == JoinOne(channels, who, isSelf, ch)
    ensures PartAllOf(channels, who, isSelf, [ch]) == PartOne(channels, who, isSelf, ch)
  {
    hide JoinOne, PartOne;
    assert [ch][..0] == [];
  }

  // ----- Each event keeps the agreement -----

  lemma ServerStaysConsistent(s: Server, e: Event)
    requires ServerIsConsistent(s) && Allowed(s, e)
    ensures ServerIsConsistent(After(s, e))
  {
    hide IsOther, IsListing, IsNick, ServerIsConsistent, MembersOf, NicksOf;
    match e {
      case Connects(who) => MoreUsers(s, s.users + {who});
      case Joins(who, ch, _) => JoinStaysConsistent(s, e);
      case Parts(who, ch, _) => PartStaysConsistent(s, e);
      case Quits(who, _) => QuitStaysConsistent(s, e);
      case Renames(who, now) => RenameStaysConsistent(s, e);
      case Names(ch, _, names) => NamesStayConsistent(s, e);
      case SetsTopic(_, _) => TopicStaysConsistent(s, e);
      case TellsTopic(_) => TopicStaysConsistent(s, e);
      case Says(_) =>
    }
  }

  lemma MoreUsers(s: Server, users: set<Bytes>)
    requires ServerIsConsistent(s) && s.users <= users
    ensures ServerIsConsistent(s.(users := users))
  {
  }

  lemma JoinStaysConsistent(s: Server, e: Event)
    requires ServerIsConsistent(s) && Allowed(s, e) && e.Joins?
    ensures ServerIsConsistent(After(s, e))
  {
  }

  lemma PartStaysConsistent(s: Server, e: Event)
    requires ServerIsConsistent(s) && Allowed(s, e) && e.Parts?
    ensures ServerIsConsistent(After(s, e))
  {
  }

  lemma QuitStaysConsistent(s: Server, e: Event)
    requires ServerIsConsistent(s) && Allowed(s, e) && e.Quits?
    ensures ServerIsConsistent(After(s, e))
  {
  }

  lemma RenameStaysConsistent(s: Server, e: Event)
    requires ServerIsConsistent(s) && Allowed(s, e) && e.Renames?
    ensures ServerIsConsistent(After(s, e))
  {
    hide IsNick;
  }

  lemma NamesStayConsistent(s: Server, e: Event)
    requires ServerIsConsistent(s) && Allowed(s, e) && e.Names?
    ensures ServerIsConsistent(After(s, e))
  {
    hide IsListing, NicksOf;
  }

  lemma TopicStaysConsistent(s: Server, e: Event)
    requires ServerIsConsistent(s) && Allowed(s, e) && (e.SetsTopic? || e.TellsTopic?)
    ensures ServerIsConsistent(After(s, e))
  {
  }

  /** Nothing about a channel changes on the server but perhaps its topic when the client does not know it. */
  predicate SameChannel(s: Server, s': Server, ch: Bytes) {
    && ch in s.untold && ch in s'.untold && MembersOf(s', ch) == MembersOf(s, ch) && s'.untold[ch] == s.untold[ch]
    && KnownTopic(s', ch) == KnownTopic(s, ch)
  }

  /** The client's picture of one channel. */
  predicate ChannelAgrees(c: ChannelState, s: Server, ch: Bytes) {
    ch in s.untold && ListAgrees(c.nicks, s.me, MembersOf(s, ch), s.untold[ch]) && c.topic == KnownTopic(s, ch)
  }

  /** When one channel changes, on both sides alike, the agreement stays. */
  lemma OneChannelChanges(p: Picture, s: Server, c: ChannelState, s': Server, ch: Bytes)
    requires Agrees(p, s) && ch in p.channels && ChannelAgrees(c, s', ch)
    requires s'.me == s.me && s'.name == s.name && s'.untold.Keys == s.untold.Keys
    requires forall other :: other in s.untold && other != ch ==> SameChannel(s, s', other)
    ensures Agrees(p.(channels := p.channels[ch := c]), s')
  {
    hide ListAgrees, MembersOf, KnownTopic;
    var p' := p.(channels := p.channels[ch := c]);
    forall other | other in p'.channels && other != ch
      ensures ListAgrees(p'.channels[other].nicks, s'.me, MembersOf(s', other), s'.untold[other])
              && p'.channels[other].topic == KnownTopic(s', other)
    {
      assert SameChannel(s, s', other);
    }
  }

  /** When no channel the client is in changes, the agreement stays. */
  lemma NoChannelChanges(p: Picture, s: Server, s': Server)
    requires Agrees(p, s) && s'.me == s.me && s'.name == s.name && s'.untold.Keys == s.untold.Keys
    requires forall other :: other in s.untold ==> SameChannel(s, s', other)
    ensures Agrees(p, s')
  {
    hide ListAgrees, MembersOf, KnownTopic;
    forall other | other in p.channels
      ensures ListAgrees(p.channels[other].nicks, s'.me, MembersOf(s', other), s'.untold[other])
              && p.channels[other].topic == KnownTopic(s', other)
    {
      assert SameChannel(s, s', other);
    }
  }

  lemma JoinAgrees(p: Picture, s: Server, e: Event)
    requires ServerIsConsistent(s) && Agrees(p, s) && Allowed(s, e) && e.Joins?
    ensures Agrees(p.(channels := JoinOne(p.channels, e.who, IsMe(p, e.who), e.ch)), After(s, e))
  {
    hide ListAgrees, AddNick, Agrees;
    Alike(p, s);
    if e.who == s.me {
      OwnJoinAgrees(p, s, e);
    } else if e.ch in p.channels {
      var c := p.channels[e.ch];
      ListJoined(c.nicks, s.me, MembersOf(s, e.ch), s.untold[e.ch], e.who);
      OneChannelChanges(p, s, c.(nicks := AddNick(c.nicks, e.who)), After(s, e), e.ch);
    } else {
      NoChannelChanges(p, s, After(s, e));
    }
  }

  /** What the agreement says of the keys and of each channel. */
  lemma Alike(p: Picture, s: Server)
    requires Agrees(p, s)
    ensures p.nick == Some(s.me) && p.channels.Keys == s.untold.Keys
    ensures forall ch :: ch in p.channels ==> ChannelAgrees(p.channels[ch], s, ch)
  {
    hide ListAgrees, MembersOf;
  }

  lemma OwnJoinAgrees(p: Picture, s: Server, e: Event)
    requires ServerIsConsistent(s) && Agrees(p, s) && Allowed(s, e) && e.Joins? && e.who == s.me
    ensures Agrees(p.(channels := JoinOne(p.channels, e.who, true, e.ch)), After(s, e))
  {
    hide ListAgrees, AddNick;
    assert e.ch !in s.untold;
    ListOpened(s.me, MembersOf(s, e.ch));
  }

  lemma ListOpened(me: Bytes, members: set<Bytes>)
    ensures ListAgrees(AddNick([], me), me, members + {me}, members)
  {
  }

  lemma ListJoined(nicks: seq<Bytes>, me: Bytes, members: set<Bytes>, untold: set<Bytes>, who: Bytes)
    requires ListAgrees(nicks, me, members, untold)
    ensures ListAgrees(AddNick(nicks, who), me, members + {who}, untold)
  {
  }

  lemma PartAgrees(p: Picture, s: Server, e: Event)
    requires ServerIsConsistent(s) && Agrees(p, s) && Allowed(s, e) && e.Parts?
    ensures Agrees(p.(channels := PartOne(p.channels, e.who, IsMe(p, e.who), e.ch)), After(s, e))
  {
    hide WithoutNick, ListAgrees, Agrees;
    Alike(p, s);
    if e.who == s.me {
      OwnPartAgrees(p, s, e);
    } else if e.ch in p.channels {
      var c := p.channels[e.ch];
      ListWithout(c.nicks, s.me, MembersOf(s, e.ch), s.untold[e.ch], e.who);
      OneChannelChanges(p, s, c.(nicks := WithoutNick(c.nicks, e.who)), After(s, e), e.ch);
    } else {
      NoChannelChanges(p, s, After(s, e));
    }
  }

  lemma OwnPartAgrees(p: Picture, s: Server, e: Event)
    requires ServerIsConsistent(s) && Agrees(p, s) && Allowed(s, e) && e.Parts? && e.who == s.me
    ensures Agrees(p.(channels := p.channels - {e.ch}), After(s, e))
  {
    hide ListAgrees;
  }

  lemma QuitAgrees(p: Picture, s: Server, e: Event)
    requires ServerIsConsistent(s) && Agrees(p, s) && Allowed(s, e) && e.Quits?
    ensures Agrees(p.(channels := if IsMe(p, e.who) then map[]
                                  else map ch | ch in p.channels :: RemoveFrom(p.channels[ch], e.who)), After(s, e))
  {
    hide WithoutNick, ListAgrees;
    if e.who != s.me {
      forall ch | ch in p.channels
        ensures ListAgrees(WithoutNick(p.channels[ch].nicks, e.who), s.me, MembersOf(After(s, e), ch),
                           After(s, e).untold[ch])
      {
        assert InChannel(s, ch);
        ListWithout(p.channels[ch].nicks, s.me, MembersOf(s, ch), s.untold[ch], e.who);
      }
    }
  }

  lemma ListWithout(nicks: seq<Bytes>, me: Bytes, members: set<Bytes>, untold: set<Bytes>, who: Bytes)
    requires ListAgrees(nicks, me, members, untold) && who != me
    ensures ListAgrees(WithoutNick(nicks, who), me, members - {who}, untold - {who})
  {
    hide WithoutNick, NoDuplicates;
    WithoutNickMembers(nicks, who);
  }

  lemma RenameAgrees(p: Picture, s: Server, e: Event)
    requires ServerIsConsistent(s) && Agrees(p, s) && Allowed(s, e) && e.Renames?
    ensures Agrees(p.(nick := if IsMe(p, e.who) then Some(e.now) else p.nick,
                      channels := map ch | ch in p.channels :: RenameIn(p.channels[ch], e.who, e.now)), After(s, e))
  {
    hide Renamed, RenameSet, ListAgrees, IsNick;
    forall ch | ch in p.channels
      ensures ListAgrees(Renamed(p.channels[ch].nicks, e.who, e.now), After(s, e).me,
                         MembersOf(After(s, e), ch), After(s, e).untold[ch])
    {
      assert InChannel(s, ch);
      ListRenamed(p.channels[ch].nicks, s.me, MembersOf(s, ch), s.untold[ch], e.who, e.now);
    }
  }

  lemma ListRenamed(nicks: seq<Bytes>, me: Bytes, members: set<Bytes>, untold: set<Bytes>, who: Bytes, now: Bytes)
    requires ListAgrees(nicks, me, members, untold) && now !in members && untold <= members
    ensures ListAgrees(Renamed(nicks, who, now), if who == me then now else me, RenameSet(members, who, now),
                       RenameSet(untold, who, now))
  {
    hide Renamed, NoDuplicates;
    RenamedMembers(nicks, who, now);
  }

  lemma NamesAgree(p: Picture, s: Server, e: Event)
    requires ServerIsConsistent(s) && Agrees(p, s) && Allowed(s, e) && e.Names?
    ensures Agrees(p.(channels := NamesReply(p.channels, [s.me, e.symbol, e.ch, NamesText(e.names)])), After(s, e))
  {
    hide AddListed, Split, NamesText, ListAgrees, IsListing, Agrees, NicksOf;
    Alike(p, s);
    if e.ch in p.channels {
      var c := p.channels[e.ch];
      var nicks := AddListed(c.nicks, Split(SPACE, NamesText(e.names)));
      ListNamed(c.nicks, s.me, MembersOf(s, e.ch), s.untold[e.ch], e.names);
      OneChannelChanges(p, s, c.(nicks := nicks), After(s, e), e.ch);
    } else {
      NoChannelChanges(p, s, After(s, e));
    }
  }

  lemma ListNamed(nicks: seq<Bytes>, me: Bytes, members: set<Bytes>, untold: set<Bytes>, names: seq<Listed>)
    requires ListAgrees(nicks, me, members, untold)
    requires names != [] && NicksOf(names) <= members && forall k :: 0 <= k < |names| ==> IsListing(names[k])
    ensures ListAgrees(AddListed(nicks, Split(SPACE, NamesText(names))), me, members, untold - NicksOf(names))
  {
    hide AddListed, Split, NamesText, NoDuplicates, IsListing;
    NamesAreRead(nicks, names);
  }

  lemma TopicAgrees(p: Picture, s: Server, e: Event)
    requires ServerIsConsistent(s) && Agrees(p, s) && Allowed(s, e) && (e.SetsTopic? || e.TellsTopic?)
    ensures Agrees(p.(channels := SetTopic(p.channels, e.ch, Some(After(s, e).topics[e.ch]))), After(s, e))
  {
    hide ListAgrees, Agrees;
    Alike(p, s);
    if e.ch in p.channels {
      OneChannelChanges(p, s, p.channels[e.ch].(topic := Some(After(s, e).topics[e.ch])), After(s, e), e.ch);
    } else {
      NoChannelChanges(p, s, After(s, e));
    }
  }

  lemma OthersAgree(p: Picture, s: Server, m: Message)
    requires Agrees(p, s) && IsOther(m)
    ensures Agrees(Applied(p, m).1, s)
  {
    hide FromMessage, NoDuplicates;
  }

  /** Being told keeps the agreement. */
  lemma ToldStaysInAgreement(p: Picture, s: Server, e: Event, m: Message)
    requires ServerIsConsistent(s) && Agrees(p, s) && Allowed(s, e) && Tells(s, e, m)
    ensures Agrees(Applied(p, m).1, After(s, e))
  {
    hide ServerIsConsistent, Agrees, Applied, Tells, IsOther, JoinOne, PartOne, NamesReply, RenameIn, RemoveFrom, SetTopic;
    if e.Says? {
      assert m == e.message by { SaysWhat(s, e, m); }
      OthersAgree(p, s, m);
    } else if e.SetsTopic? || e.TellsTopic? {
      TopicMessageMeans(p, s, e, m);
      TopicAgrees(p, s, e);
    } else {
      MessageMeans(p, s, e, m);
      match e {
        case Connects(_) => NotTold(s, e, m); assert false;
        case Joins(_, _, _) => JoinAgrees(p, s, e);
        case Parts(_, _, _) => PartAgrees(p, s, e);
        case Quits(_, _) => QuitAgrees(p, s, e);
        case Renames(_, _) => RenameAgrees(p, s, e);
        case Names(_, _, _) => NamesAgree(p, s, e);
      }
    }
  }

  lemma SaysWhat(s: Server, e: Event, m: Message)
    requires e.Says? && Tells(s, e, m)
    ensures m == e.message
  {
  }

  lemma NotTold(s: Server, e: Event, m: Message)
    requires e.Connects?
    ensures !Tells(s, e, m)
  {
  }

  /** What the client need not be told does not touch its channels. */
  lemma UntoldStaysInAgreement(p: Picture, s: Server, e: Event)
    requires ServerIsConsistent(s) && Agrees(p, s) && Allowed(s, e) && !MustTell(s, e)
    ensures Agrees(p, After(s, e))
  {
    hide ListAgrees, IsOther, SharesChannel;
    assert After(s, e).me == s.me && p.channels.Keys == s.untold.Keys;
    forall ch | ch in s.untold
      ensures ch in After(s, e).untold && MembersOf(After(s, e), ch) == MembersOf(s, ch)
              && After(s, e).untold[ch] == s.untold[ch]
    {
      UntoldLeavesChannel(s, e, ch);
    }
  }

  lemma UntoldLeavesChannel(s: Server, e: Event, ch: Bytes)
    requires ServerIsConsistent(s) && Allowed(s, e) && !MustTell(s, e) && ch in s.untold
    ensures ch in After(s, e).untold && MembersOf(After(s, e), ch) == MembersOf(s, ch)
    ensures After(s, e).untold[ch] == s.untold[ch]
  {
    hide IsOther, IsNick;
    assert InChannel(s, ch) && ch in s.members;
  }

  // ----- Runs -----

  /** An event, and the message the client was told it with, if it was. */
  datatype Step = Step(event: Event, told: Option<Message>)

  /** Every event is allowed where it happens, told truthfully, and left out only where the client need not know. */
  ghost predicate ConsistentRun(s: Server, steps: seq<Step>)
    decreases |steps|
  {
    steps == [] ||
    (var e := steps[0].event;
     && Allowed(s, e)
     && (if steps[0].told.Some? then Tells(s, e, steps[0].told.value) else !MustTell(s, e))
     && ConsistentRun(After(s, e), steps[1..]))
  }

  function ServerAfter(s: Server, steps: seq<Step>): Server
    decreases |steps|
  {
    if steps == [] then s else ServerAfter(After(s, steps[0].event), steps[1..])
  }

  function PictureAfter(p: Picture, steps: seq<Step>): Picture
    decreases |steps|
  {
    if steps == [] then p
    else PictureAfter(if steps[0].told.Some? then Applied(p, steps[0].told.value).1 else p, steps[1..])
  }

  lemma {:induction false} RunsStayInAgreement(p: Picture, s: Server, steps: seq<Step>)
    requires ServerIsConsistent(s) && Agrees(p, s) && ConsistentRun(s, steps)
    ensures Agrees(PictureAfter(p, steps), ServerAfter(s, steps)) && ServerIsConsistent(ServerAfter(s, steps))
    decreases |steps|
  {
    hide ServerIsConsistent, Agrees, Applied, After, Tells, MustTell, Allowed;
    if steps != [] {
      var e := steps[0].event;
      ServerStaysConsistent(s, e);
      if steps[0].told.Some? {
        ToldStaysInAgreement(p, s, e, steps[0].told.value);
        RunsStayInAgreement(Applied(p, steps[0].told.value).1, After(s, e), steps[1..]);
      } else {
        UntoldStaysInAgreement(p, s, e);
        RunsStayInAgreement(p, After(s, e), steps[1..]);
      }
    }
  }

  /** A client just registered: the server knows it, and it is in no channel. */
  ghost predicate JustRegistered(s: Server) {
    ServerIsConsistent(s) && s.me in s.users && s.untold == map[]
  }

  /** A welcome to the client's nick, from the server by name if it gives one. */
  predicate IsWelcome(m: Message, s: Server) {
    && m.verb == Numeric(1) && m.params.values != [] && m.params.values[0] == s.me
    && match m.prefix
       case Some(Server(name)) => s.name == Some(name)
       case _ => s.name == None
  }

  lemma WelcomeAgrees(s: Server, welcome: Message)
    requires JustRegistered(s) && IsWelcome(welcome, s)
    ensures Agrees(Applied(Picture(None, map[], None), welcome).1, s)
  {
  }

  /** The client mirrors the server: after the welcome and any consistent run, its nick is the server's, its channels are
      exactly those it is in, each with the topic it has if the client was told of it since it came in; and each nick list
      is free of duplicates, holds the client itself and only true members, and is the whole membership once every member
      has been named. */
  lemma ClientMirrorsServer(s: Server, welcome: Message, steps: seq<Step>)
    requires JustRegistered(s) && IsWelcome(welcome, s) && ConsistentRun(s, steps)
    ensures var p := PictureAfter(Applied(Picture(None, map[], None), welcome).1, steps);
            var s' := ServerAfter(s, steps);
      && p.nick == Some(s'.me) && p.serverName == s'.name
      && (forall ch :: ch in p.channels <==> InChannel(s', ch))
      && (forall ch :: ch in p.channels ==>
            && NoDuplicates(p.channels[ch].nicks) && s'.me in p.channels[ch].nicks
            && (forall n :: n in p.channels[ch].nicks ==> n in MembersOf(s', ch))
            && (ch in s'.topicTold ==> ch in s'.topics && p.channels[ch].topic == Some(s'.topics[ch]))
            && (ch !in s'.topicTold ==> p.channels[ch].topic == None)
            && ch in s'.untold
            && (s'.untold[ch] == {} ==> forall n :: n in p.channels[ch].nicks <==> n in MembersOf(s', ch)))
  {
    hide Applied, PictureAfter, ServerAfter, ConsistentRun, NoDuplicates;
    WelcomeAgrees(s, welcome);
    RunsStayInAgreement(Applied(Picture(None, map[], None), welcome).1, s, steps);
  }
}
