/** Whole lines and payloads written out, so that no two parts of the formats can be exchanged on both sides at once. */
module WireExamples {
  import opened Wrappers
  import opened Octets
  import opened ByteClasses
  import opened Separated
  import opened Decimal
  import opened Tags
  import opened Prefixes
  import opened Verbs
  import opened ParamLists
  import opened Messages
  import opened Commands
  import opened Ctcp
  import opened Dcc

  // ----- A message -----

  // @k=\s;+v=1 :n!u@h 432 x :y z
  const TAGS_TEXT: Bytes := [64, 107, 61, 92, 115, 59, 43, 118, 61, 49, 32]
  const PREFIX_TEXT: Bytes := [58, 110, 33, 117, 64, 104, 32]
  const VERB_TEXT: Bytes := [52, 51, 50]
  const PARAMS_TEXT: Bytes := [32, 120, 32, 58, 121, 32, 122]

  const TAGS: seq<Tag> := [Tag(TagKey(false, [107]), Some([32])), Tag(TagKey(true, [118]), Some([49]))]
  const ORIGIN: Prefix := Prefix.User([110], Some([117]), Some([104]))
  const PARAMS: Params := Params([[120], [121, 32, 122]], true)

  lemma TagsAreWritten()
    ensures TagsText(TAGS) == TAGS_TEXT && WellFormedTags(TAGS)
  {
    assert [32][1..] == [] && [49][1..] == [];
    assert Escape([32]) == [92, 115] && Escape([49]) == [49];
    assert TagText(TAGS[0]) == [107, 61, 92, 115];
    assert TagText(TAGS[1]) == [43, 118, 61, 49];
    assert TAGS[1..] == [TAGS[1]] && TAGS[1..][1..] == [];
    assert JoinedTags([TAGS[1]]) == [43, 118, 61, 49];
    assert MoreTags([TAGS[1]]) == [59, 43, 118, 61, 49];
  }

  lemma OriginIsWritten()
    ensures PrefixText(Some(ORIGIN)) == PREFIX_TEXT && WellFormedPrefix(ORIGIN)
  {
    assert Token(ORIGIN) == [110, 33, 117, 64, 104];
  }

  lemma ParamsAreWritten()
    ensures ParamsText(PARAMS.values, true) == PARAMS_TEXT && WellFormedParams(PARAMS, 0)
  {
    assert PARAMS.values[1..] == [[121, 32, 122]];
    assert ParamsText([[121, 32, 122]], true) == [32, 58, 121, 32, 122];
  }

  lemma CodeIsWritten()
    ensures VerbText(Numeric(432)) == VERB_TEXT && WellFormedVerb(Numeric(432))
  {
  }

  /** Tags, origin, numeric and params of a line, each where RFC 2812 and the message-tags specification put it. */
  lemma LineOfFourParts()
    ensures ParseLine(TAGS_TEXT + (PREFIX_TEXT + (VERB_TEXT + PARAMS_TEXT)))
         == Ok(Message(TAGS, Some(ORIGIN), Numeric(432), PARAMS))
  {
    hide TagsText, PrefixText, VerbText, ParamsText, WellFormedTags, WellFormedPrefix, WellFormedVerb, WellFormedParams,
         ParseLine;
    TagsAreWritten();
    OriginIsWritten();
    CodeIsWritten();
    ParamsAreWritten();
    PrintThenParse(Message(TAGS, Some(ORIGIN), Numeric(432), PARAMS));
  }

  // ----- Commands -----

  /** Which param is which, for the commands with several kinds of them. */
  lemma ParamsByPlace(a: Bytes, b: Bytes, c: Bytes, d: Bytes, trailing: bool)
    requires COMMA !in a && COMMA !in b
    ensures FromWord(USER, Params([a, b, c, d], trailing)) == Ok(Command.User(a, b, d))
    ensures FromWord(JOIN, Params([a, b], trailing)) == Ok(JoinChannels([a], [b]))
    ensures FromWord(PRIVMSG, Params([a, b], trailing)) == Ok(Privmsg([a], b))
  {
    hide Split;
    PlaceOfUser(a, b, c, d, trailing);
    PlaceOfJoin(a, b, trailing);
    PlaceOfPrivmsg(a, b, trailing);
  }

  lemma PlaceOfUser(a: Bytes, b: Bytes, c: Bytes, d: Bytes, trailing: bool)
    ensures FromWord(USER, Params([a, b, c, d], trailing)) == Ok(Command.User(a, b, d))
  {
    hide Split;
    KeywordIsUpper(USER);
    RequiredTable();
  }

  lemma PlaceOfJoin(a: Bytes, b: Bytes, trailing: bool)
    requires COMMA !in a && COMMA !in b
    ensures FromWord(JOIN, Params([a, b], trailing)) == Ok(JoinChannels([a], [b]))
  {
    hide Split;
    KeywordIsUpper(JOIN);
    RequiredTable();
    LastItem(COMMA, a);
    LastItem(COMMA, b);
  }

  lemma PlaceOfPrivmsg(a: Bytes, b: Bytes, trailing: bool)
    requires COMMA !in a
    ensures FromWord(PRIVMSG, Params([a, b], trailing)) == Ok(Privmsg([a], b))
  {
    hide Split;
    KeywordIsUpper(PRIVMSG);
    RequiredTable();
    LastItem(COMMA, a);
  }

  // ----- DCC inside CTCP -----

  // f, 127.0.0.1, port 80, 5 bytes
  const REQUEST: DccRequest := Send([102], Ipv4Addr(127, 0, 0, 1), 80, 5)
  // SEND f 2130706433 80 5
  const REQUEST_WORDS: seq<Bytes> :=
    [[83, 69, 78, 68], [102], [50, 49, 51, 48, 55, 48, 54, 52, 51, 51], [56, 48], [53]]

  lemma {:induction false} DigitsOf(n: nat, front: Bytes, last: nat)
    requires last < 10 && n > 0 && Digits(n) == front
    ensures Digits(n * 10 + last) == front + [DigitByte(last)]
  {
    assert (n * 10 + last) / 10 == n && (n * 10 + last) % 10 == last;
  }

  lemma LoopbackDigits()
    ensures Digits(2_130_706_433) == [50, 49, 51, 48, 55, 48, 54, 52, 51, 51]
  {
    DigitsOf(2, [50], 1);
    DigitsOf(21, [50, 49], 3);
    DigitsOf(213, [50, 49, 51], 0);
    DigitsOf(2130, [50, 49, 51, 48], 7);
    DigitsOf(21307, [50, 49, 51, 48, 55], 0);
    DigitsOf(213070, [50, 49, 51, 48, 55, 48], 6);
    DigitsOf(2130706, [50, 49, 51, 48, 55, 48, 54], 4);
    DigitsOf(21307064, [50, 49, 51, 48, 55, 48, 54, 52], 3);
    DigitsOf(213070643, [50, 49, 51, 48, 55, 48, 54, 52, 51], 3);
  }

  /** Name, address as one decimal number in network byte order, port and size, in that order. */
  lemma RequestIsWritten()
    ensures RequestWords(REQUEST) == REQUEST_WORDS && RequestFrom(REQUEST_WORDS) == Some(REQUEST)
  {
    hide Digits, IpToU32, RequestFrom;
    LoopbackDigits();
    NetworkByteOrder();
    DigitsOfEighty();
    WordsMeanTheRequest(REQUEST);
  }

  lemma DigitsOfEighty()
    ensures Digits(80) == [56, 48] && Digits(5) == [53]
  {
    DigitsOf(8, [56], 0);
  }
}
