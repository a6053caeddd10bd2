/** A whole wire message: parsing, printing, and exactly when one undoes the other. */
module Messages {
  import opened Wrappers
  import opened Octets
  import opened ByteClasses
  import opened Tags
  import opened Prefixes
  import opened Verbs
  import opened ParamLists

  datatype Message = Message(tags: seq<Tag>, prefix: Option<Prefix>, verb: Verb, params: Params)

  function MessageText(m: Message): Bytes {
    TagsText(m.tags) + (PrefixText(m.prefix) + (VerbText(m.verb) + ParamsText(m.params.values, m.params.trailing)))
  }

  lemma NoPrefixIsEmpty()
    ensures PrefixText(None) == []
  {
  }

  method Write(m: Message, out: BytesMut)
    modifies out
    ensures out.data == old(out.data) + MessageText(m)
  {
    hide TagsText, PrefixText, VerbText, ParamsText;
    WriteTags(m.tags, out);
    if m.prefix.Some? {
      WritePrefix(m.prefix.value, out);
    }
    assert out.data == old(out.data) + TagsText(m.tags) + PrefixText(m.prefix) by {
      NoPrefixIsEmpty();
    }
    WriteVerb(m.verb, out);
    WriteParams(m.params, out);
  }

  function TagsPart(data: Bytes): (r: Result<(seq<Tag>, nat), ParseError>)
    requires data != []
    ensures r.Ok? ==> r.value.1 <= |data|
  {
    if data[0] == AT_SIGN then
      var (tags, pos) :- TagsAt(data, 1);
      if pos == |data| || data[pos] != SPACE then Err(MissingSpace(pos)) else Ok((tags, pos + 1))
    else Ok(([], 0))
  }

  function PrefixPart(data: Bytes, pos: nat): (r: Result<(Option<Prefix>, nat), ParseError>)
    requires pos <= |data|
    ensures r.Ok? ==> pos <= r.value.1 <= |data|
  {
    if pos < |data| && data[pos] == COLON then
      var (p, e) :- PrefixAt(data, pos + 1);
      if e == |data| || data[e] != SPACE then Err(MissingSpace(e)) else Ok((Some(p), e + 1))
    else Ok((None, pos))
  }

  /** What a line means. */
  function ParseLine(data: Bytes): Result<Message, ParseError> {
    if data == [] then Err(Empty)
    else
      var (tags, p1) :- TagsPart(data);
      var (prefix, p2) :- PrefixPart(data, p1);
      var (verb, p3) :- VerbAt(data, p2);
      var (params, p4) :- ParamsAt(data, p3, 0);
      if p4 != |data| then Err(MissingSpace(p4)) else Ok(Message(tags, prefix, verb, params))
  }

  method ParseTagsPart(data: Bytes) returns (r: Result<(seq<Tag>, nat), ParseError>)
    requires data != []
    ensures r == TagsPart(data)
  {
    if data[0] != AT_SIGN {
      return Ok(([], 0));
    }
    var t := ParseTags(data, 1);
    if t.Err? {
      return Err(t.error);
    }
    var pos := t.value.1;
    if pos >= |data| || data[pos] != SPACE {
      return Err(MissingSpace(pos));
    }
    return Ok((t.value.0, pos + 1));
  }

  method ParsePrefixPart(data: Bytes, start: nat) returns (r: Result<(Option<Prefix>, nat), ParseError>)
    requires start <= |data|
    ensures r == PrefixPart(data, start)
  {
    if start >= |data| || data[start] != COLON {
      return Ok((None, start));
    }
    var p := ParsePrefix(data, start + 1);
    if p.Err? {
      return Err(p.error);
    }
    var pos := p.value.1;
    if pos >= |data| || data[pos] != SPACE {
      return Err(MissingSpace(pos));
    }
    return Ok((Some(p.value.0), pos + 1));
  }

  method Parse(data: Bytes) returns (r: Result<Message, ParseError>)
    ensures r == ParseLine(data)
  {
    if data == [] {
      return Err(Empty);
    }
    hide TagsPart, PrefixPart, VerbAt, ParamsAt;
    var tags := ParseTagsPart(data);
    if tags.Err? {
      return Err(tags.error);
    }
    var prefix := ParsePrefixPart(data, tags.value.1);
    if prefix.Err? {
      return Err(prefix.error);
    }
    var verb := ParseVerb(data, prefix.value.1);
    if verb.Err? {
      return Err(verb.error);
    }
    var params := ParseParams(data, verb.value.1);
    if params.Err? {
      return Err(params.error);
    }
    if params.value.1 != |data| {
      return Err(MissingSpace(params.value.1));
    }
    return Ok(Message(tags.value.0, prefix.value.0, verb.value.0, params.value.0));
  }

  predicate WellFormed(m: Message) {
    && WellFormedTags(m.tags)
    && (m.prefix.Some? ==> WellFormedPrefix(m.prefix.value))
    && WellFormedVerb(m.verb)
    && WellFormedParams(m.params, 0)
  }

  // ----- The printed line is read back -----

  /** The message the parser gives back for a printed one: the trailing flag follows the printed form. */
  function AsRead(m: Message): Message {
    m.(params := Params(m.params.values, ReadAsTrailing(m.params.values, m.params.trailing, 0)))
  }

  /** Everything but the trailing flag is well formed. */
  predicate PrintableMessage(m: Message) {
    && WellFormedTags(m.tags)
    && (m.prefix.Some? ==> WellFormedPrefix(m.prefix.value))
    && WellFormedVerb(m.verb)
    && Printable(m.params.values, 0)
  }

  lemma TagsTextAt(data: Bytes, tags: seq<Tag>)
    requires tags != []
    ensures |TagsText(tags)| == |JoinedTags(tags)| + 2
    ensures var e := 1 + |JoinedTags(tags)|;
            At(data, 0, TagsText(tags)) <==>
            e < |data| && data[0] == AT_SIGN && At(data, 1, JoinedTags(tags)) && data[e] == SPACE
  {
    hide At, JoinedTags;
    AtSplit(data, 0, [AT_SIGN], JoinedTags(tags) + [SPACE]);
    AtOne(data, 0, AT_SIGN);
    AtSplit(data, 1, JoinedTags(tags), [SPACE]);
    AtOne(data, 1 + |JoinedTags(tags)|, SPACE);
  }

  lemma PrefixTextAt(data: Bytes, pos: nat, p: Prefix)
    ensures |PrefixText(Some(p))| == |Token(p)| + 2
    ensures var e := pos + 1 + |Token(p)|;
            At(data, pos, PrefixText(Some(p))) <==>
            e < |data| && data[pos] == COLON && At(data, pos + 1, Token(p)) && data[e] == SPACE
  {
    hide At, Token;
    AtSplit(data, pos, [COLON], Token(p) + [SPACE]);
    AtOne(data, pos, COLON);
    AtSplit(data, pos + 1, Token(p), [SPACE]);
    AtOne(data, pos + 1 + |Token(p)|, SPACE);
  }

  lemma PrintedTagsPart(data: Bytes, tags: seq<Tag>)
    requires data != [] && WellFormedTags(tags) && At(data, 0, TagsText(tags))
    requires tags == [] ==> data[0] != AT_SIGN
    ensures TagsPart(data) == Ok((tags, |TagsText(tags)|))
  {
    hide At, JoinedTags, WellFormedTags;
    if tags != [] {
      TagsTextAt(data, tags);
      PrintedTagsParse(data, 1, tags);
    }
  }

  lemma PrintedPrefixPart(data: Bytes, pos: nat, prefix: Option<Prefix>)
    requires pos < |data| && At(data, pos, PrefixText(prefix))
    requires prefix.Some? ==> WellFormedPrefix(prefix.value)
    requires prefix.None? ==> data[pos] != COLON
    ensures PrefixPart(data, pos) == Ok((prefix, pos + |PrefixText(prefix)|))
  {
    hide At, Token, WellFormedPrefix, PrefixText, PrefixAt;
    if prefix.Some? {
      PrefixTextAt(data, pos, prefix.value);
      PrintedPrefixParses(data, pos + 1, prefix.value);
    } else {
      NoPrefixIsEmpty();
    }
  }

  lemma VerbStarts(data: Bytes, pos: nat, verb: Verb)
    requires WellFormedVerb(verb) && At(data, pos, VerbText(verb))
    ensures pos < |data| && (IsDigit(data[pos]) || IsLetter(data[pos]))
    ensures VerbText(verb) != []
  {
    assert data[pos..pos + |VerbText(verb)|][0] == data[pos];
  }

  lemma AtWhole(data: Bytes, w: Bytes)
    ensures data == w <==> At(data, 0, w) && |data| == |w|
  {
    assert data[0..|data|] == data;
  }

  /** A printed message starts with '@' only for its tags, and its prefix position with ':' only for its prefix. */
  lemma PrintedFronts(m: Message)
    requires PrintableMessage(m)
    ensures var s := MessageText(m);
            var p1 := |TagsText(m.tags)|;
            && p1 < |s|
            && (m.tags == [] ==> s[0] != AT_SIGN)
            && (m.prefix.None? ==> s[p1] != COLON)
  {
    var s := MessageText(m);
    var p1 := |TagsText(m.tags)|;
    var v := VerbText(m.verb);
    AtWhole(v, v);
    VerbStarts(v, 0, m.verb);
    if m.prefix.None? {
      assert s[p1] == v[0];
    } else {
      assert s[p1] == COLON;
    }
  }

  /** A line is the printed message exactly when its four parts are found one after the other. */
  lemma Layout(s: Bytes, m: Message)
    ensures var t, p, v, q := TagsText(m.tags), PrefixText(m.prefix), VerbText(m.verb),
                              ParamsText(m.params.values, m.params.trailing);
            s == MessageText(m) <==>
            && At(s, 0, t) && At(s, |t|, p) && At(s, |t| + |p|, v) && At(s, |t| + |p| + |v|, q)
            && |s| == |t| + |p| + |v| + |q|
    ensures |MessageText(m)| == |TagsText(m.tags)| + |PrefixText(m.prefix)| + |VerbText(m.verb)|
                              + |ParamsText(m.params.values, m.params.trailing)|
  {
    hide At, TagsText, PrefixText, VerbText, ParamsText;
    var t, p, v, q := TagsText(m.tags), PrefixText(m.prefix), VerbText(m.verb),
                      ParamsText(m.params.values, m.params.trailing);
    AtSplit(s, 0, t, p + (v + q));
    AtSplit(s, |t|, p, v + q);
    AtSplit(s, |t| + |p|, v, q);
    AtWhole(s, t + (p + (v + q)));
  }

  /** The four parts of a parse, put together. */
  lemma PartsMakeTheLine(s: Bytes, m: Message, p1: nat, p2: nat, p3: nat)
    requires s != [] && TagsPart(s) == Ok((m.tags, p1)) && PrefixPart(s, p1) == Ok((m.prefix, p2))
    requires p2 <= |s| && VerbAt(s, p2) == Ok((m.verb, p3)) && ParamsAt(s, p3, 0) == Ok((m.params, |s|))
    ensures ParseLine(s) == Ok(m)
  {
    hide TagsPart, PrefixPart, VerbAt, ParamsAt;
  }

  lemma PrintedLineIsRead(m: Message)
    requires PrintableMessage(m)
    ensures ParseLine(MessageText(m)) == Ok(AsRead(m))
  {
    hide At, TagsText, PrefixText, VerbText, ParamsText, TagsPart, PrefixPart, VerbAt, ParamsAt, MessageText, ParseLine,
         WellFormedTags, WellFormedPrefix, WellFormedVerb, Printable, ReadAsTrailing;
    var s := MessageText(m);
    PrintedFronts(m);
    Layout(s, m);
    var p1 := |TagsText(m.tags)|;
    var p2 := p1 + |PrefixText(m.prefix)|;
    var p3 := p2 + |VerbText(m.verb)|;
    PrintedTagsPart(s, m.tags);
    PrintedPrefixPart(s, p1, m.prefix);
    if m.params.values != [] {
      StartsWithSpace(s, p3, m.params.values, m.params.trailing);
    } else {
      NoText(m.params.trailing);
    }
    VerbStarts(s, p2, m.verb);
    PrintedVerbParses(s, p2, m.verb);
    PrintedParamsParse(s, p3, m.params.values, m.params.trailing, 0);
    PartsMakeTheLine(s, AsRead(m), p1, p2, p3);
  }

  /** What well-formedness adds to being printable: the flag already is the one the parser gives. */
  lemma WellFormedIsPrintable(m: Message)
    ensures WellFormed(m) <==> PrintableMessage(m) && AsRead(m) == m
  {
  }

  // ----- The parsed message prints the line back -----

  /** Where the params of a line start, found without parsing: past the tags region, the prefix word and the verb word. */
  function ParamsStart(line: Bytes): nat {
    var p1 := if line != [] && line[0] == AT_SIGN then TagsEnd(line, 1) + 1 else 0;
    var p2 := if p1 < |line| && line[p1] == COLON then Span(line, p1 + 1, NotSpace) + 1 else p1;
    if p2 <= |line| then Span(line, p2, NotSpace) else |line|
  }

  /** The line writes every escape by name and, if it has a fifteenth param, puts a colon before it. */
  predicate Canonical(line: Bytes) {
    && (line != [] && line[0] == AT_SIGN ==> NamedEscapes(line, 1))
    && !BareFifteenth(line, ParamsStart(line), 0)
  }

  /** No tag value of the line escapes a NUL byte, the one byte the parser lets in and the writer cannot print. */
  predicate AdmitsNoNul(line: Bytes) {
    line != [] && line[0] == AT_SIGN ==> NoNulEscape(line, 1)
  }

  lemma ParsedTagsPart(data: Bytes)
    requires data != [] && TagsPart(data).Ok?
    ensures var (tags, e) := TagsPart(data).value;
            var named := data[0] == AT_SIGN ==> NamedEscapes(data, 1);
            && |TagsText(tags)| <= e
            && (named <==> At(data, 0, TagsText(tags)))
            && (named ==> |TagsText(tags)| == e)
            && (AdmitsNoNul(data) <==> WellFormedTags(tags))
            && e == (if data[0] == AT_SIGN then TagsEnd(data, 1) + 1 else 0)
  {
    hide At, JoinedTags, NamedEscapes, NoNulEscape, TagsEnd, TagsAt, WellFormedTags, TagsText;
    if data[0] == AT_SIGN {
      var tags := TagsPart(data).value.0;
      ParsedTagsPrint(data, 1);
      TagsTextAt(data, tags);
    } else {
      NoTagsPart(data);
    }
  }

  lemma NoTagsPart(data: Bytes)
    ensures TagsText([]) == [] && At(data, 0, []) && WellFormedTags([])
  {
  }

  lemma ParsedPrefixPart(data: Bytes, pos: nat)
    requires pos <= |data| && PrefixPart(data, pos).Ok?
    ensures var (prefix, e) := PrefixPart(data, pos).value;
            && At(data, pos, PrefixText(prefix)) && pos + |PrefixText(prefix)| == e
            && (prefix.Some? ==> WellFormedPrefix(prefix.value))
            && e == (if pos < |data| && data[pos] == COLON then Span(data, pos + 1, NotSpace) + 1 else pos)
  {
    hide At, Token, PrefixAt, WellFormedPrefix, Span, PrefixText;
    if pos < |data| && data[pos] == COLON {
      ParsedPrefixPrints(data, pos + 1);
      PrefixTextAt(data, pos, PrefixAt(data, pos + 1).value.0);
    } else {
      NoPrefixIsEmpty();
      AtEmpty(data, pos);
    }
  }

  /** The four parts a parsed line was made of. */
  lemma LineHasParts(s: Bytes) returns (p1: nat, p2: nat, p3: nat)
    requires ParseLine(s).Ok?
    ensures s != [] && TagsPart(s).Ok? && TagsPart(s).value == (ParseLine(s).value.tags, p1)
    ensures p1 <= |s| && PrefixPart(s, p1).Ok? && PrefixPart(s, p1).value == (ParseLine(s).value.prefix, p2)
    ensures p2 <= |s| && VerbAt(s, p2).Ok? && VerbAt(s, p2).value == (ParseLine(s).value.verb, p3)
    ensures p3 <= |s| && ParamsAt(s, p3, 0).Ok? && ParamsAt(s, p3, 0).value == (ParseLine(s).value.params, |s|)
  {
    hide TagsPart, PrefixPart, VerbAt, ParamsAt;
    p1 := TagsPart(s).value.1;
    p2 := PrefixPart(s, p1).value.1;
    p3 := VerbAt(s, p2).value.1;
  }

  /** The verb and the params of a parsed line are well formed, whatever its tags hold. */
  lemma ParsedVerbAndParams(s: Bytes)
    requires ParseLine(s).Ok?
    ensures WellFormedVerb(ParseLine(s).value.verb) && WellFormedParams(ParseLine(s).value.params, 0)
  {
    hide At, VerbAt, ParamsAt, ParseLine, Span, WellFormedVerb, WellFormedParams, BareFifteenth, ParamsText;
    var p1, p2, p3 := LineHasParts(s);
    ParsedVerbPrints(s, p2);
    ParsedParamsPrint(s, p3, 0);
  }

  /** An accepted line prints back as itself exactly when it is canonical, and never more than one byte longer; its
      message is well formed exactly when no tag value of the line escapes a NUL. */
  lemma ParseThenPrint(s: Bytes)
    requires ParseLine(s).Ok?
    ensures var m := ParseLine(s).value;
            && (MessageText(m) == s <==> Canonical(s))
            && |MessageText(m)| <= |s| + 1
            && (WellFormed(m) <==> AdmitsNoNul(s))
  {
    hide At, TagsText, PrefixText, VerbText, ParamsText, TagsPart, PrefixPart, VerbAt, ParamsAt, ParseLine, Span,
         WellFormedTags, WellFormedPrefix, WellFormedVerb, WellFormedParams, BareFifteenth, AdmitsNoNul, TagsEnd,
         NamedEscapes, MessageText;
    var m := ParseLine(s).value;
    var p1, p2, p3 := LineHasParts(s);
    Layout(s, m);
    ParsedTagsPart(s);
    ParsedPrefixPart(s, p1);
    ParsedVerbPrints(s, p2);
    ParsedParamsPrint(s, p3, 0);
    assert ParamsStart(s) == p3;
  }

  /** The line with every tag escape written by name and a colon in front of a bare fifteenth param. */
  function NormalForm(line: Bytes): Bytes
    requires ParamsStart(line) <= |line|
  {
    var end := if line != [] && line[0] == AT_SIGN then TagsEnd(line, 1) else 0;
    var tags := if line != [] && line[0] == AT_SIGN then [AT_SIGN] + Normalized(line, 1) else [];
    if end <= ParamsStart(line) then
      tags + (line[end..ParamsStart(line)] + Coloned(line, ParamsStart(line), 0))
    else []
  }

  /** What an accepted line prints back as, whatever it escapes: its normal form. */
  lemma ParsedLinePrintsNormalForm(s: Bytes)
    requires ParseLine(s).Ok?
    ensures ParamsStart(s) <= |s| && MessageText(ParseLine(s).value) == NormalForm(s)
  {
    hide At, PrefixText, VerbText, ParamsText, TagsPart, PrefixPart, VerbAt, ParamsAt, ParseLine, Span, WellFormedTags,
         WellFormedPrefix, WellFormedVerb, WellFormedParams, AdmitsNoNul, TagsEnd, NamedEscapes, Coloned, Normalized,
         TagsText;
    var m := ParseLine(s).value;
    var p1, p2, p3 := LineHasParts(s);
    PartsAreFound(s);
    ParsedParamsPrintColoned(s, p3, 0);
    TagsPartIsNormal(s);
    var end := if s[0] == AT_SIGN then TagsEnd(s, 1) else 0;
    var tags := if s[0] == AT_SIGN then [AT_SIGN] + Normalized(s, 1) else [];
    assert s[end..p3] == s[end..p1] + (s[p1..p2] + s[p2..p3]);
    Regroup(tags, s[end..p1], s[p1..p2], s[p2..p3], Coloned(s, p3, 0));
  }

  lemma Regroup(a: Bytes, b: Bytes, c: Bytes, d: Bytes, e: Bytes)
    ensures (a + b) + (c + (d + e)) == a + ((b + (c + d)) + e)
  {
  }

  /** Prefix and verb print as what they were read from. */
  lemma PartsAreFound(s: Bytes)
    requires ParseLine(s).Ok?
    ensures var m := ParseLine(s).value;
            var p3 := ParamsStart(s);
            var p1 := TagsPart(s).value.1;
            && s != [] && TagsPart(s).Ok? && p1 <= |s| && PrefixPart(s, p1).Ok?
            && var p2 := PrefixPart(s, p1).value.1;
            && p1 <= p2 <= p3 <= |s| && VerbAt(s, p2).Ok? && VerbAt(s, p2).value.1 == p3
            && PrefixText(m.prefix) == s[p1..p2] && VerbText(m.verb) == s[p2..p3]
  {
    hide At, PrefixText, VerbText, ParamsText, TagsPart, PrefixPart, VerbAt, ParamsAt, ParseLine, Span, WellFormedTags,
         WellFormedPrefix, WellFormedVerb, TagsEnd, NamedEscapes, TagsText, AdmitsNoNul;
    var m := ParseLine(s).value;
    var p1, p2, p3 := LineHasParts(s);
    ParsedTagsPart(s);
    ParsedPrefixPart(s, p1);
    ParsedVerbPrints(s, p2);
    FoundAt(s, p1, PrefixText(m.prefix));
    FoundAt(s, p2, VerbText(m.verb));
    assert ParamsStart(s) == p3;
  }

  lemma FoundAt(data: Bytes, i: nat, w: Bytes)
    requires At(data, i, w)
    ensures data[i..i + |w|] == w
  {
  }

  lemma TagsPartIsNormal(s: Bytes)
    requires s != [] && TagsPart(s).Ok?
    ensures var (tags, p1) := TagsPart(s).value;
            if s[0] == AT_SIGN then
              && TagsEnd(s, 1) + 1 == p1 <= |s|
              && TagsText(tags) == ([AT_SIGN] + Normalized(s, 1)) + s[TagsEnd(s, 1)..p1]
            else p1 == 0 && TagsText(tags) == []
  {
    hide TagsAt, Normalized, TagsEnd, TagsText;
    if s[0] == AT_SIGN {
      TagsRegionIsNormal(s);
    } else {
      NoTagsPart(s);
    }
  }

  lemma TagsRegionIsNormal(s: Bytes)
    requires s != [] && TagsAt(s, 1).Ok?
    ensures var (tags, e) := TagsAt(s, 1).value;
            && TagsEnd(s, 1) == e < |s|
            && TagsText(tags) == ([AT_SIGN] + Normalized(s, 1)) + s[e..e + 1]
  {
    hide TagsAt, JoinedTags, Normalized, NamedEscapes, NoNulEscape, At, WellFormedTags, TagsText, TagsEnd;
    ParsedTagsPrint(s, 1);
    ParsedTagsPrintNormal(s, 1);
    var (tags, e) := TagsAt(s, 1).value;
    TagsTextIs(tags, Normalized(s, 1));
    OneByte(s, e);
  }

  lemma TagsTextIs(tags: seq<Tag>, text: Bytes)
    requires tags != [] && JoinedTags(tags) == text
    ensures TagsText(tags) == ([AT_SIGN] + text) + [SPACE]
  {
    hide JoinedTags;
  }

  lemma OneByte(s: Bytes, i: nat)
    requires i < |s|
    ensures s[i..i + 1] == [s[i]]
  {
  }

  /** With named escapes only, a line with a bare fifteenth param prints back with one colon more, in front of that param;
      so the param is everything to the end of the line. */
  lemma BareFifteenthPrintsColoned(s: Bytes)
    requires ParseLine(s).Ok? && (s[0] == AT_SIGN ==> NamedEscapes(s, 1)) && BareFifteenth(s, ParamsStart(s), 0)
    ensures var k := FifteenthStart(s, ParamsStart(s), 0);
            MessageText(ParseLine(s).value) == s[..k] + ([COLON] + s[k..])
  {
    hide ParseLine, MessageText, Span, BareFifteenth, FifteenthStart, Normalized, NamedEscapes;
    ParsedLinePrintsNormalForm(s);
    var p3 := ParamsStart(s);
    var k := FifteenthStart(s, p3, 0);
    if s[0] == AT_SIGN {
      NamedIsNormal(s, 1);
      assert [AT_SIGN] + s[1..TagsEnd(s, 1)] == s[..TagsEnd(s, 1)];
    }
    EndBeforeParams(s);
    FifteenthIsLater(s, p3, 0);
    assert s[..k] == s[..p3] + s[p3..k];
  }

  lemma EndBeforeParams(s: Bytes)
    requires ParseLine(s).Ok?
    ensures s != [] && (s[0] == AT_SIGN ==> TagsEnd(s, 1) <= ParamsStart(s))
  {
    hide TagsPart, PrefixPart, VerbAt, ParseLine, TagsEnd, Normalized, PrefixText, VerbText, TagsText, ParamsStart;
    PartsAreFound(s);
    TagsPartIsNormal(s);
  }

  // ----- Main results -----

  /** Exactly the well-formed messages are read back from their printed form. */
  lemma PrintThenParse(m: Message)
    ensures ParseLine(MessageText(m)) == Ok(m) <==> WellFormed(m)
  {
    hide MessageText, ParseLine, WellFormed, PrintableMessage, Canonical, AdmitsNoNul;
    WellFormedIsPrintable(m);
    if WellFormed(m) {
      PrintedLineIsRead(m);
    } else if ParseLine(MessageText(m)) == Ok(m) {
      ParseThenPrint(MessageText(m));
      CanonicalAdmitsNoNul(MessageText(m));
      assert false;
    }
  }

  lemma CanonicalAdmitsNoNul(line: Bytes)
    requires Canonical(line)
    ensures AdmitsNoNul(line)
  {
    if line != [] && line[0] == AT_SIGN {
      NamedRegion(line, 1);
    }
  }

  /** Printing a parsed message and parsing it again gives the same message exactly when no tag value of the
      line escapes a NUL; the message is well formed exactly then, and no NUL-free line escapes one. */
  lemma ParsePrintParse(s: Bytes)
    requires ParseLine(s).Ok?
    ensures ParseLine(MessageText(ParseLine(s).value)) == ParseLine(s) <==> AdmitsNoNul(s)
    ensures WellFormed(ParseLine(s).value) <==> AdmitsNoNul(s)
    ensures NUL !in s ==> AdmitsNoNul(s)
  {
    hide MessageText, ParseLine, WellFormed, Canonical, NoNulEscape;
    ParseThenPrint(s);
    PrintThenParse(ParseLine(s).value);
    if NUL !in s && s != [] && s[0] == AT_SIGN {
      NulFreeRegion(s, 1);
    }
  }

  lemma PrefixedNul(rest: Result<(Bytes, nat), ParseError>)
    requires rest.Ok? && rest.value.0 == []
    ensures Prefixed([NUL], rest) == Ok(([NUL], rest.value.1))
  {
    assert [NUL] + rest.value.0 == [NUL];
  }

  const ESCAPED_NUL: Bytes := [AT_SIGN, 107, EQUALS, BACKSLASH, NUL, SPACE, 65]  // @k=\<NUL> A
  const RAW_NUL: Bytes := [AT_SIGN, 107, EQUALS, NUL, SPACE, 65]
  const NUL_TAGGED: Message := Message([Tag(TagKey(false, [107]), Some([NUL]))], None, Word([65]), Params([], false))

  lemma EscapedNulIsRead()
    ensures ParseLine(ESCAPED_NUL) == Ok(NUL_TAGGED)
  {
    var s := ESCAPED_NUL;
    SpanIs(s, 1, 2, IsTagKeyByte);
    SpanIs(s, 6, 7, IsLetter);
    assert s[1..2] == [107] && s[6..7] == [65];
    assert ValueAt(s, 5) == Ok(([], 5));
    PrefixedNul(ValueAt(s, 5));
    assert ValueAt(s, 3) == Ok(([NUL], 5));
  }

  lemma NulIsPrintedRaw()
    ensures MessageText(NUL_TAGGED) == RAW_NUL && !WellFormed(NUL_TAGGED)
  {
    var m := NUL_TAGGED;
    assert [NUL][1..] == [] && Escape([NUL]) == [NUL];
    assert TagText(m.tags[0]) == [107, EQUALS, NUL];
    assert m.tags[1..] == [] && JoinedTags(m.tags) == [107, EQUALS, NUL];
  }

  lemma RawNulIsRefused()
    ensures ParseLine(RAW_NUL) == Err(InvalidTagEscape(3))
  {
    SpanIs(RAW_NUL, 1, 2, IsTagKeyByte);
    assert ValueAt(RAW_NUL, 3) == Err(InvalidTagEscape(3));
  }

  /** A line on which it fails: a tag value that escapes a NUL is accepted, printed raw and then refused. */
  lemma EscapedNulIsNotReadBack()
    ensures ParseLine(ESCAPED_NUL).Ok? && !WellFormed(ParseLine(ESCAPED_NUL).value)
    ensures ParseLine(MessageText(ParseLine(ESCAPED_NUL).value)) == Err(InvalidTagEscape(3))
  {
    hide ParseLine, MessageText, WellFormed;
    EscapedNulIsRead();
    NulIsPrintedRaw();
    RawNulIsRefused();
  }

  /** The well-formed messages print exactly the accepted canonical lines. */
  lemma PrintedLinesAreTheCanonicalOnes(s: Bytes)
    ensures (exists m :: WellFormed(m) && MessageText(m) == s) <==> ParseLine(s).Ok? && Canonical(s)
  {
    hide MessageText, ParseLine, WellFormed, Canonical, AdmitsNoNul;
    if m :| WellFormed(m) && MessageText(m) == s {
      PrintThenParse(m);
      ParseThenPrint(s);
    }
    if ParseLine(s).Ok? && Canonical(s) {
      var m := ParseLine(s).value;
      ParseThenPrint(s);
      CanonicalAdmitsNoNul(s);
      assert WellFormed(m) && MessageText(m) == s;
    }
  }

  /** The word at an offset, up to the next space or the end. */
  function WordAt(s: Bytes, at: nat): Bytes
    requires at <= |s|
  {
    s[at..Span(s, at, NotSpace)]
  }

  /** What is at the offset an error carries, or what is wrong with the whole line. TooManyParams explains nothing:
      the parser's own limit check on params never is what refuses a line. */
  predicate Explains(s: Bytes, e: ParseError) {
    match e
    case Empty => s == []
    case Forbidden(at) => at < |s| && (IsForbidden(s[at]) || s[at] == SPACE)
    case MissingSpace(at) => at == |s|
    case UnexpectedEnd => s != [] && s[|s| - 1] == SPACE
    case InvalidTagKey(at) =>
      at == |s| || (s != [] && s[0] == AT_SIGN && KeyIsWanted(s, 1, at) && NoKeyAt(s, at)) || KeyIsCutOff(s, at)
    case InvalidTagEscape(at) => at < |s| && IsForbidden(s[at])
    case InvalidCommand(at) => at < |s| && !IsVerbWord(WordAt(s, at))
    case InvalidPrefix(at) => 0 < at <= |s| && s[at - 1] == COLON && (at < |s| ==> s[at] == SPACE)
    case TooManyParams(_) => false
  }

  /** One or more letters, or three digits. */
  predicate IsVerbWord(w: Bytes) {
    || (w != [] && forall k :: 0 <= k < |w| ==> IsLetter(w[k]))
    || (|w| == 3 && forall k :: 0 <= k < 3 ==> IsDigit(w[k]))
  }

  lemma TagsErrorExplains(s: Bytes)
    requires s != [] && TagsPart(s).Err?
    ensures Explains(s, TagsPart(s).error)
  {
    hide TagsAt, TagsEnd, JoinedTags, NamedEscapes, NoNulEscape;
    if TagsAt(s, 1).Err? {
      TagsErrors(s, 1);
    } else {
      ParsedTagsPrint(s, 1);
      assert false;
    }
  }

  lemma PrefixErrorExplains(s: Bytes, pos: nat)
    requires pos <= |s| && PrefixPart(s, pos).Err?
    ensures Explains(s, PrefixPart(s, pos).error)
  {
  }

  lemma VerbErrorExplains(s: Bytes, pos: nat)
    requires (0 < pos <= |s| && s[pos - 1] == SPACE) || pos == 0 < |s|
    requires VerbAt(s, pos).Err?
    ensures Explains(s, VerbAt(s, pos).error)
  {
    hide Explains, VerbAt, WordAt;
    if pos == |s| {
      NoVerbExplains(s);
    } else if IsLetter(s[pos]) {
      WordErrorExplains(s, pos);
    } else {
      NumericErrorExplains(s, pos);
    }
  }

  lemma NoVerbExplains(s: Bytes)
    requires s != [] && s[|s| - 1] == SPACE && VerbAt(s, |s|).Err?
    ensures Explains(s, VerbAt(s, |s|).error)
  {
    hide WordAt, IsVerbWord;
  }

  /** A word that does not end at a space or the end of the line holds a byte that is no letter. */
  lemma WordErrorExplains(s: Bytes, pos: nat)
    requires pos < |s| && IsLetter(s[pos]) && VerbAt(s, pos).Err?
    ensures Explains(s, VerbAt(s, pos).error)
  {
    hide WordAt, IsVerbWord;
    var e := Span(s, pos, IsLetter);
    MixedWord(s, pos, e);
  }

  lemma MixedWord(s: Bytes, pos: nat, e: nat)
    requires pos < e < |s| && IsLetter(s[pos]) && !IsLetter(s[e]) && s[e] != SPACE
    requires forall k :: pos <= k < e ==> s[k] != SPACE
    ensures !IsVerbWord(WordAt(s, pos))
  {
    var w := WordAt(s, pos);
    assert Span(s, pos, NotSpace) > e;
    assert w[e - pos] == s[e] && w[0] == s[pos];
  }

  lemma NumericErrorExplains(s: Bytes, pos: nat)
    requires pos < |s| && !IsLetter(s[pos]) && VerbAt(s, pos).Err?
    ensures Explains(s, VerbAt(s, pos).error)
  {
    var w := WordAt(s, pos);
    assert forall k :: 0 <= k < |w| ==> w[k] == s[pos + k];
  }

  lemma {:induction false} ParamsErrorExplains(s: Bytes, pos: nat, n: nat)
    requires pos <= |s| && n <= 14 && (pos < |s| ==> s[pos] == SPACE) && ParamsAt(s, pos, n).Err?
    ensures Explains(s, ParamsAt(s, pos, n).error)
    decreases |s| - pos
  {
    hide IsVerbWord, WordAt;
    if pos + 1 < |s| && s[pos + 1] != COLON && n < 14 && IsMiddleFirst(s[pos + 1]) {
      var e := Span(s, pos + 1, IsMiddleRest);
      if e == |s| || !IsForbidden(s[e]) {
        ParamsErrorExplains(s, e, n + 1);
      }
    }
  }

  /** Every refusal points at its cause. */
  lemma ErrorsPointAtTheirCause(s: Bytes)
    requires ParseLine(s).Err?
    ensures Explains(s, ParseLine(s).error)
  {
    hide TagsPart, PrefixPart, VerbAt, ParamsAt, Explains;
    if s == [] {
      EmptyExplains();
    } else if TagsPart(s).Err? {
      TagsErrorExplains(s);
    } else {
      var p1 := TagsPart(s).value.1;
      if PrefixPart(s, p1).Err? {
        PrefixErrorExplains(s, p1);
      } else {
        var p2 := PrefixPart(s, p1).value.1;
        VerbPosition(s);
        if VerbAt(s, p2).Err? {
          VerbErrorExplains(s, p2);
        } else {
          var p3 := VerbAt(s, p2).value.1;
          ParamsPosition(s, p2);
          if ParamsAt(s, p3, 0).Err? {
            ParamsErrorExplains(s, p3, 0);
          } else {
            ParsedParamsPrint(s, p3, 0);
            assert false;
          }
        }
      }
    }
  }

  lemma EmptyExplains()
    ensures Explains([], Empty)
  {
  }

  /** The verb stands at the start of the line or after a space. */
  lemma VerbPosition(s: Bytes)
    requires s != [] && TagsPart(s).Ok? && PrefixPart(s, TagsPart(s).value.1).Ok?
    ensures var pos := PrefixPart(s, TagsPart(s).value.1).value.1;
            (0 < pos <= |s| && s[pos - 1] == SPACE) || pos == 0
  {
  }

  lemma ParamsPosition(s: Bytes, pos: nat)
    requires pos <= |s| && VerbAt(s, pos).Ok?
    ensures var e := VerbAt(s, pos).value.1; e < |s| ==> s[e] == SPACE
  {
  }

  /** The printed form of a printable message is not empty and holds no NUL, CR or LF. */
  lemma PrintedLineIsClean(m: Message)
    requires PrintableMessage(m)
    ensures Clean(MessageText(m)) && MessageText(m) != []
  {
    hide JoinedTags, ParamsText, Printable;
    JoinedTagsAreClean(m.tags);
    ParamsTextIsClean(m.params.values, m.params.trailing, 0);
    assert Clean(TagsText(m.tags)) && Clean(VerbText(m.verb));
    assert m.prefix.Some? ==> Clean(Token(m.prefix.value));
    assert Clean(PrefixText(m.prefix));
    VerbStarts(VerbText(m.verb), 0, m.verb);
  }
}
