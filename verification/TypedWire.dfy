/** Typed values through the codec: commands, and DCC requests inside private messages, under any chunking. */
module TypedWire {
  import opened Wrappers
  import opened Octets
  import opened ByteClasses
  import opened Separated
  import opened ParamLists
  import opened Messages
  import opened Codec
  import opened Commands
  import opened Decimal
  import opened Ctcp
  import opened Dcc

  // ----- Commands -----

  function MessagesOf(cs: seq<Command>): seq<Message> {
    seq(|cs|, i requires 0 <= i < |cs| => MessageOf(cs[i]))
  }

  /** The commands whose lines are within the limit. */
  function FittingCommands(max: nat, cs: seq<Command>): seq<Command> {
    if cs == [] then []
    else (if |MessageText(MessageOf(cs[0]))| + 2 <= max then [cs[0]] else []) + FittingCommands(max, cs[1..])
  }

  lemma MessagesOfOne(c: Command, cs: seq<Command>)
    ensures MessagesOf([c] + cs) == [MessageOf(c)] + MessagesOf(cs)
  {
    hide MessageOf;
  }

  lemma {:induction false} FittingCommute(max: nat, cs: seq<Command>)
    ensures Fitting(max, MessagesOf(cs)) == MessagesOf(FittingCommands(max, cs))
  {
    hide MessageText, MessageOf, MessagesOf;
    if cs == [] {
      NothingFits(max);
    } else {
      var c, rest := cs[0], cs[1..];
      assert cs == [c] + rest;
      FittingCommute(max, rest);
      MessagesOfOne(c, rest);
      MessagesOfOne(c, FittingCommands(max, rest));
      assert ([MessageOf(c)] + MessagesOf(rest))[1..] == MessagesOf(rest);
      assert [] + FittingCommands(max, rest) == FittingCommands(max, rest);
      assert [] + Fitting(max, MessagesOf(rest)) == Fitting(max, MessagesOf(rest));
    }
  }

  lemma NothingFits(max: nat)
    ensures Fitting(max, MessagesOf([])) == MessagesOf(FittingCommands(max, []))
  {
  }

  lemma {:induction false} FittingAreSome(max: nat, cs: seq<Command>)
    ensures forall k :: 0 <= k < |FittingCommands(max, cs)| ==> FittingCommands(max, cs)[k] in cs
  {
    hide MessageText, MessageOf;
    if cs != [] {
      FittingAreSome(max, cs[1..]);
    }
  }

  /** The events are messages that mean these commands, one by one. */
  predicate Mean(events: seq<Event>, cs: seq<Command>) {
    |events| == |cs| &&
    forall k :: 0 <= k < |cs| ==> events[k].Ok? && FromMessage(events[k].value) == Ok(cs[k])
  }

  /** Well-formed commands made into messages, encoded into one buffer, cut into any chunks, decoded and read, come back
      as the commands whose lines are within the limit, nothing left over. */
  lemma CommandsEndToEnd(max: nat, cs: seq<Command>, chunks: seq<Bytes>)
    requires forall k :: 0 <= k < |cs| ==> WellFormedCommand(cs[k])
    requires Concat(chunks) == Encoded(Fitting(max, MessagesOf(cs)))
    ensures Mean(Run(max, [], chunks).0, FittingCommands(max, cs)) && Run(max, [], chunks).1 == []
  {
    hide PrintableMessage, WellFormedCommand, MessageText, MessageOf, AsRead, FromMessage, Run, Fitting;
    var ms := MessagesOf(cs);
    forall k | 0 <= k < |ms|
      ensures PrintableMessage(ms[k])
    {
      PrintableCommand(cs[k]);
    }
    PrintableEndToEnd(max, ms, chunks);
    FittingCommute(max, cs);
    FittingAreSome(max, cs);
    var fit := FittingCommands(max, cs);
    forall k | 0 <= k < |fit|
      ensures FromMessage(AsRead(MessageOf(fit[k]))) == Ok(fit[k])
    {
      ReadBackMeans(fit[k]);
    }
  }

  // ----- DCC requests -----

  /** A private message with a DCC request to a list of targets. */
  function Offer(targets: seq<Bytes>, r: DccRequest): Command {
    Privmsg(targets, Payload(r))
  }

  /** A list of targets a private message may have. */
  predicate IsTargets(targets: seq<Bytes>) {
    targets != [] && FreeOf(COMMA, targets) && IsMiddle(Join(COMMA, targets))
  }

  /** The payload of a sendable request can be the text of a message exactly when a filename holds no NUL. */
  lemma OfferIsWellFormed(targets: seq<Bytes>, r: DccRequest)
    requires Sendable(r)
    ensures WellFormedCommand(Offer(targets, r)) <==> IsTargets(targets) && (r.Send? ==> NUL !in r.filename)
  {
    hide Payload, Join, IsMiddle, Sendable, FreeOf;
    PayloadIsClean(r);
    var values := ValuesOf(Offer(targets, r));
    assert values[0] == Join(COMMA, targets) && values[1] == Payload(r);
  }

  lemma PayloadIsClean(r: DccRequest)
    requires Sendable(r)
    ensures Clean(Payload(r)) <==> (r.Send? ==> NUL !in r.filename)
  {
    hide RequestText, Sendable;
    TextIsClean(r);
    var text := RequestText(r);
    var front: Bytes := [DELIMITER] + (DCC + [SPACE]);
    assert Clean(front) && Clean([DELIMITER]);
    CleanParts(front, text, [DELIMITER]);
  }

  lemma CleanParts(a: Bytes, b: Bytes, c: Bytes)
    requires Clean(a) && Clean(c)
    ensures Clean(a + b + c) <==> Clean(b)
  {
    if Clean(a + b + c) {
      assert forall k :: 0 <= k < |b| ==> b[k] == (a + b + c)[|a| + k];
    }
  }

  lemma TextIsClean(r: DccRequest)
    requires Sendable(r)
    ensures Clean(RequestText(r)) <==> (r.Send? ==> NUL !in r.filename)
  {
    hide Digits, Join, ValidUtf8, IpToU32;
    JoinedIsClean(RequestWords(r));
    DigitsAreClean(IpToU32(r.ip));
    DigitsAreClean(r.port);
    KeywordsAreClean();
    if r.Send? {
      DigitsAreClean(r.size);
      WordIsClean(r.filename);
      assert RequestWords(r)[1] == r.filename;
    }
  }

  lemma KeywordsAreClean()
    ensures Clean(CHAT) && Clean(CHAT_PROTOCOL) && Clean(SEND)
  {
  }

  lemma {:induction false} DigitsAreClean(n: nat)
    ensures Clean(Digits(n))
  {
    DigitsHaveValue(n);
  }

  /** White space includes CR and LF. */
  lemma WordIsClean(w: Bytes)
    requires IsWord(w)
    ensures Clean(w) <==> NUL !in w
  {
  }

  lemma {:induction false} JoinedIsClean(words: seq<Bytes>)
    ensures Clean(Join(SPACE, words)) <==> forall k :: 0 <= k < |words| ==> Clean(words[k])
  {
    if |words| > 1 {
      JoinedIsClean(words[1..]);
      assert Clean(words[0] + ([SPACE] + Join(SPACE, words[1..])))
         <==> Clean(words[0]) && Clean(Join(SPACE, words[1..])) by {
        CleanPair(words[0], Join(SPACE, words[1..]));
      }
      assert words == [words[0]] + words[1..];
    }
  }

  lemma CleanPair(a: Bytes, b: Bytes)
    ensures Clean(a + ([SPACE] + b)) <==> Clean(a) && Clean(b)
  {
    var s := a + ([SPACE] + b);
    assert forall k :: 0 <= k < |a| ==> s[k] == a[k];
    assert forall k :: 0 <= k < |b| ==> s[|a| + 1 + k] == b[k];
  }

  /** A request sent in a private message, through the codec in any chunks, is read out of the text it arrives in. */
  lemma DccEndToEnd(max: nat, targets: seq<Bytes>, r: DccRequest, chunks: seq<Bytes>)
    requires Sendable(r) && IsTargets(targets) && (r.Send? ==> NUL !in r.filename)
    requires |MessageText(MessageOf(Offer(targets, r)))| + 2 <= max
    requires Concat(chunks) == Encoded([MessageOf(Offer(targets, r))])
    ensures var events := Run(max, [], chunks).0;
            && |events| == 1 && events[0].Ok? && FromMessage(events[0].value) == Ok(Privmsg(targets, Payload(r)))
            && ParseCtcp(Payload(r)).Some? && ParseDcc(ParseCtcp(Payload(r)).value.args) == Some(r)
  {
    hide Sendable, IsTargets, Payload, MessageText, MessageOf, WellFormedCommand, FromMessage, Run, ParseCtcp, ParseDcc;
    OfferIsWellFormed(targets, r);
    PayloadRoundTrip(r);
    var cs := [Offer(targets, r)];
    assert MessagesOf(cs) == [MessageOf(cs[0])] && FittingCommands(max, cs) == cs by {
      assert cs[1..] == [] && FittingCommands(max, []) == [];
    }
    FittingCommute(max, cs);
    CommandsEndToEnd(max, cs, chunks);
  }
}
