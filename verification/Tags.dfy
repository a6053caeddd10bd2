/** IRCv3 message tags: the parser, the writer and their two round trips. */
module Tags {
  import opened Wrappers
  import opened Octets
  import opened ByteClasses

  datatype TagKey = TagKey(clientOnly: bool, name: Bytes)

  datatype Tag = Tag(key: TagKey, value: Option<Bytes>)

  // ----- What the writer prints -----

  function EscapeByte(b: byte): Bytes {
    if b == SEMICOLON then [BACKSLASH, COLON]
    else if b == SPACE then [BACKSLASH, 115]
    else if b == BACKSLASH then [BACKSLASH, BACKSLASH]
    else if b == CR then [BACKSLASH, 114]
    else if b == LF then [BACKSLASH, 110]
    else [b]
  }

  function Escape(v: Bytes): Bytes {
    if v == [] then [] else EscapeByte(v[0]) + Escape(v[1..])
  }

  function ValueText(value: Option<Bytes>): Bytes {
    if value.Some? then [EQUALS] + Escape(value.value) else []
  }

  function KeyText(key: TagKey): Bytes {
    (if key.clientOnly then [PLUS] else []) + key.name
  }

  function TagText(tag: Tag): Bytes {
    KeyText(tag.key) + ValueText(tag.value)
  }

  /** Tags separated by semicolons. */
  function JoinedTags(tags: seq<Tag>): Bytes
    decreases |tags|, 0
  {
    if tags == [] then [] else TagText(tags[0]) + MoreTags(tags[1..])
  }

  function MoreTags(tags: seq<Tag>): Bytes
    decreases |tags|, 1
  {
    if tags == [] then [] else [SEMICOLON] + JoinedTags(tags)
  }

  function TagsText(tags: seq<Tag>): Bytes {
    if tags == [] then [] else [AT_SIGN] + (JoinedTags(tags) + [SPACE])
  }

  method WriteEscapedByte(b: byte, out: BytesMut)
    modifies out
    ensures out.data == old(out.data) + EscapeByte(b)
  {
    if b == SEMICOLON {
      out.ExtendFromSlice([BACKSLASH, COLON]);
    } else if b == SPACE {
      out.ExtendFromSlice([BACKSLASH, 115]);
    } else if b == BACKSLASH {
      out.ExtendFromSlice([BACKSLASH, BACKSLASH]);
    } else if b == CR {
      out.ExtendFromSlice([BACKSLASH, 114]);
    } else if b == LF {
      out.ExtendFromSlice([BACKSLASH, 110]);
    } else {
      out.PutU8(b);
    }
  }

  method WriteEscapedValue(v: Bytes, out: BytesMut)
    modifies out
    ensures out.data == old(out.data) + Escape(v)
  {
    hide EscapeByte;
    var i := 0;
    assert v[0..] == v;
    while i < |v|
      invariant i <= |v|
      invariant out.data + Escape(v[i..]) == old(out.data) + Escape(v)
    {
      assert v[i..][1..] == v[i + 1..];
      WriteEscapedByte(v[i], out);
      i := i + 1;
    }
  }

  /** One round of the loop of WriteTags, after the separator. */
  method WriteTag(tag: Tag, out: BytesMut)
    modifies out
    ensures out.data == old(out.data) + TagText(tag)
  {
    if tag.key.clientOnly {
      out.PutU8(PLUS);
    }
    out.ExtendFromSlice(tag.key.name);
    if tag.value.Some? {
      out.PutU8(EQUALS);
      WriteEscapedValue(tag.value.value, out);
    }
  }

  lemma {:induction false} JoinedTagsSnoc(tags: seq<Tag>, tag: Tag)
    ensures JoinedTags(tags + [tag])
         == JoinedTags(tags) + ((if tags == [] then [] else [SEMICOLON]) + TagText(tag))
    decreases |tags|
  {
    hide TagText;
    if tags == [] {
      assert (tags + [tag])[1..] == [];
    } else {
      assert (tags + [tag])[1..] == tags[1..] + [tag];
      JoinedTagsSnoc(tags[1..], tag);
    }
  }

  lemma NoTags()
    ensures JoinedTags([]) == []
  {
  }

  method WriteTags(tags: seq<Tag>, out: BytesMut)
    modifies out
    ensures out.data == old(out.data) + TagsText(tags)
  {
    hide TagText, JoinedTags;
    if tags == [] {
      return;
    }
    NoTags();
    out.PutU8(AT_SIGN);
    var i := 0;
    while i < |tags|
      invariant i <= |tags|
      invariant out.data == old(out.data) + ([AT_SIGN] + JoinedTags(tags[..i]))
    {
      JoinedTagsSnoc(tags[..i], tags[i]);
      assert tags[..i] + [tags[i]] == tags[..i + 1];
      if i > 0 {
        out.PutU8(SEMICOLON);
      }
      WriteTag(tags[i], out);
      i := i + 1;
    }
    assert tags[..i] == tags;
    out.PutU8(SPACE);
  }

  // ----- What the parser reads -----

  /** What remains to be read, with the items already read put in front. */
  function Prefixed<T>(read: seq<T>, rest: Result<(seq<T>, nat), ParseError>): Result<(seq<T>, nat), ParseError> {
    if rest.Err? then rest else Ok((read + rest.value.0, rest.value.1))
  }

  lemma PrefixedNil<T>(rest: Result<(seq<T>, nat), ParseError>)
    ensures Prefixed([], rest) == rest
  {
    if rest.Ok? {
      assert [] + rest.value.0 == rest.value.0;
    }
  }

  lemma PrefixedOne<T>(read: seq<T>, x: T, rest: Result<(seq<T>, nat), ParseError>)
    ensures Prefixed(read, Prefixed([x], rest)) == Prefixed(read + [x], rest)
  {
    if rest.Ok? {
      assert read + ([x] + rest.value.0) == (read + [x]) + rest.value.0;
    }
  }

  /** The byte an escape stands for; an unknown escape stands for its second byte. */
  function Unescape(c: byte): byte {
    if c == COLON then SEMICOLON
    else if c == 115 then SPACE
    else if c == BACKSLASH then BACKSLASH
    else if c == 114 then CR
    else if c == 110 then LF
    else c
  }

  function KeyAt(data: Bytes, start: nat): (r: Result<(bool, nat, nat), ParseError>)
    requires start <= |data|
    ensures r.Ok? ==> start <= r.value.1 < r.value.2 <= |data|
  {
    var clientOnly := start < |data| && data[start] == PLUS;
    var nameStart := if clientOnly then start + 1 else start;
    var nameEnd := Span(data, nameStart, IsTagKeyByte);
    if nameEnd == nameStart then Err(InvalidTagKey(start)) else Ok((clientOnly, nameStart, nameEnd))
  }

  function ValueAt(data: Bytes, i: nat): (r: Result<(Bytes, nat), ParseError>)
    requires i <= |data|
    ensures r.Ok? ==> i <= r.value.1 <= |data|
    ensures r.Ok? && r.value.1 < |data| ==> data[r.value.1] == SEMICOLON || data[r.value.1] == SPACE
    decreases |data| - i
  {
    if i == |data| || data[i] == SEMICOLON || data[i] == SPACE then Ok(([], i))
    else if data[i] == BACKSLASH then
      if i + 1 == |data| then Ok(([], i + 1))
      else
        Prefixed([Unescape(data[i + 1])], ValueAt(data, i + 2))
    else if IsForbidden(data[i]) || !IsTagValueByte(data[i]) then Err(InvalidTagEscape(i))
    else Prefixed([data[i]], ValueAt(data, i + 1))
  }

  function OptionalValueAt(data: Bytes, i: nat): (r: Result<(Option<Bytes>, nat), ParseError>)
    requires i <= |data|
    ensures r.Ok? ==> i <= r.value.1 <= |data|
  {
    if i < |data| && data[i] == EQUALS then
      var (v, e) :- ValueAt(data, i + 1);
      Ok((Some(v), e))
    else Ok((None, i))
  }

  function TagAt(data: Bytes, pos: nat): (r: Result<(Tag, nat), ParseError>)
    requires pos <= |data|
    ensures r.Ok? ==> pos < r.value.1 <= |data|
  {
    var (clientOnly, nameStart, nameEnd) :- KeyAt(data, pos);
    var (value, e) :- OptionalValueAt(data, nameEnd);
    Ok((Tag(TagKey(clientOnly, data[nameStart..nameEnd]), value), e))
  }

  function TagsAt(data: Bytes, pos: nat): (r: Result<(seq<Tag>, nat), ParseError>)
    requires pos <= |data|
    ensures r.Ok? ==> pos < r.value.1 <= |data|
    decreases |data| - pos
  {
    var (tag, e) :- TagAt(data, pos);
    if e < |data| && data[e] == SEMICOLON then
      Prefixed([tag], TagsAt(data, e + 1))
    else if e < |data| && data[e] == SPACE then Ok(([tag], e))
    else Err(InvalidTagKey(e))
  }

  method ParseKey(data: Bytes, start: nat) returns (r: Result<(bool, nat, nat), ParseError>)
    requires start <= |data|
    ensures r == KeyAt(data, start)
  {
    var i := start;
    var clientOnly := i < |data| && data[i] == PLUS;
    if clientOnly {
      i := i + 1;
    }
    var nameStart := i;
    while i < |data| && IsTagKeyByte(data[i])
      invariant nameStart <= i <= |data|
      invariant Span(data, nameStart, IsTagKeyByte) == Span(data, i, IsTagKeyByte)
    {
      i := i + 1;
    }
    if i == nameStart {
      return Err(InvalidTagKey(start));
    }
    return Ok((clientOnly, nameStart, i));
  }

  method ParseValue(data: Bytes, start: nat) returns (r: Result<(Bytes, nat), ParseError>)
    requires start <= |data|
    ensures r == ValueAt(data, start)
  {
    var out: Bytes := [];
    var i := start;
    PrefixedNil(ValueAt(data, start));
    while i < |data|
      invariant start <= i <= |data|
      invariant ValueAt(data, start) == Prefixed(out, ValueAt(data, i))
    {
      var b := data[i];
      if b == SEMICOLON || b == SPACE {
        break;
      }
      if b == BACKSLASH {
        if i + 1 < |data| {
          var c := data[i + 1];
          PrefixedOne(out, Unescape(c), ValueAt(data, i + 2));
          if c == COLON {
            out := out + [SEMICOLON];
          } else if c == 115 {
            out := out + [SPACE];
          } else if c == BACKSLASH {
            out := out + [BACKSLASH];
          } else if c == 114 {
            out := out + [CR];
          } else if c == 110 {
            out := out + [LF];
          } else {
            out := out + [c];
          }
          i := i + 2;
        } else {
          i := i + 1;
        }
        continue;
      }
      if IsForbidden(b) || !IsTagValueByte(b) {
        return Err(InvalidTagEscape(i));
      }
      PrefixedOne(out, b, ValueAt(data, i + 1));
      out := out + [b];
      i := i + 1;
    }
    assert out + [] == out;
    return Ok((out, i));
  }

  /** One round of the loop of ParseTags: a key and, after an equals sign, a value. */
  method ParseTag(data: Bytes, start: nat) returns (r: Result<(Tag, nat), ParseError>)
    requires start <= |data|
    ensures r == TagAt(data, start)
  {
    var key := ParseKey(data, start);
    if key.Err? {
      return Err(key.error);
    }
    var (clientOnly, nameStart, nameEnd) := key.value;
    var pos := nameEnd;
    var value: Option<Bytes> := None;
    if pos < |data| && data[pos] == EQUALS {
      pos := pos + 1;
      var v := ParseValue(data, pos);
      if v.Err? {
        return Err(v.error);
      }
      value := Some(v.value.0);
      pos := v.value.1;
    }
    return Ok((Tag(TagKey(clientOnly, data[nameStart..nameEnd]), value), pos));
  }

  method ParseTags(data: Bytes, start: nat) returns (r: Result<(seq<Tag>, nat), ParseError>)
    requires start <= |data|
    ensures r == TagsAt(data, start)
  {
    hide TagAt;
    var out: seq<Tag> := [];
    var pos := start;
    PrefixedNil(TagsAt(data, start));
    while true
      invariant start <= pos <= |data|
      invariant TagsAt(data, start) == Prefixed(out, TagsAt(data, pos))
      decreases |data| - pos
    {
      var one := ParseTag(data, pos);
      if one.Err? {
        return Err(one.error);
      }
      var (tag, after) := one.value;
      if after < |data| && data[after] == SEMICOLON {
        PrefixedOne(out, tag, TagsAt(data, after + 1));
        pos := after + 1;
      } else if after < |data| && data[after] == SPACE {
        return Ok((out + [tag], after));
      } else {
        return Err(InvalidTagKey(after));
      }
      out := out + [tag];
    }
  }

  // ----- Printing then parsing -----

  predicate IsKeyName(name: Bytes) {
    name != [] && forall k :: 0 <= k < |name| ==> IsTagKeyByte(name[k])
  }

  predicate WellFormedTag(tag: Tag) {
    && IsKeyName(tag.key.name)
    && (tag.value.Some? ==> NUL !in tag.value.value)
  }

  predicate WellFormedTags(tags: seq<Tag>) {
    forall k :: 0 <= k < |tags| ==> WellFormedTag(tags[k])
  }

  lemma EscapedByteParses(data: Bytes, i: nat, b: byte)
    requires b != NUL && At(data, i, EscapeByte(b))
    ensures ValueAt(data, i) == Prefixed([b], ValueAt(data, i + |EscapeByte(b)|))
  {
    var head := EscapeByte(b);
    assert data[i..i + |head|] == head;
    assert data[i] == head[0] && (|head| == 2 ==> data[i + 1] == head[1]);
  }

  lemma {:induction false} EscapedValueParses(data: Bytes, i: nat, v: Bytes)
    requires NUL !in v && At(data, i, Escape(v))
    requires i + |Escape(v)| < |data|
    requires data[i + |Escape(v)|] == SEMICOLON || data[i + |Escape(v)|] == SPACE
    ensures ValueAt(data, i) == Ok((v, i + |Escape(v)|))
    decreases |v|
  {
    hide At, EscapeByte;
    if v != [] {
      AtSplit(data, i, EscapeByte(v[0]), Escape(v[1..]));
      EscapedByteParses(data, i, v[0]);
      EscapedValueParses(data, i + |EscapeByte(v[0])|, v[1..]);
      assert [v[0]] + v[1..] == v;
    }
  }

  lemma PrintedKeyParses(data: Bytes, i: nat, key: TagKey)
    requires IsKeyName(key.name) && At(data, i, KeyText(key))
    requires i + |KeyText(key)| < |data| && !IsTagKeyByte(data[i + |KeyText(key)|])
    ensures KeyAt(data, i) == Ok((key.clientOnly, i + |KeyText(key)| - |key.name|, i + |KeyText(key)|))
    ensures data[i + |KeyText(key)| - |key.name|..i + |KeyText(key)|] == key.name
  {
    var flag: Bytes := if key.clientOnly then [PLUS] else [];
    var nameStart := i + |flag|;
    var nameEnd := nameStart + |key.name|;
    AtSplit(data, i, flag, key.name);
    assert data[nameStart..nameEnd] == key.name;
    assert forall k :: nameStart <= k < nameEnd ==> data[k] == key.name[k - nameStart];
    AtOne(data, i, PLUS);
    SpanIs(data, nameStart, nameEnd, IsTagKeyByte);
  }

  lemma PrintedValueParses(data: Bytes, i: nat, value: Option<Bytes>)
    requires (value.Some? ==> NUL !in value.value) && At(data, i, ValueText(value))
    requires i + |ValueText(value)| < |data|
    requires data[i + |ValueText(value)|] == SEMICOLON || data[i + |ValueText(value)|] == SPACE
    ensures OptionalValueAt(data, i) == Ok((value, i + |ValueText(value)|))
    ensures !IsTagKeyByte(data[i])
  {
    if value.Some? {
      AtSplit(data, i, [EQUALS], Escape(value.value));
      AtOne(data, i, EQUALS);
      EscapedValueParses(data, i + 1, value.value);
    }
  }

  lemma PrintedTagParses(data: Bytes, i: nat, tag: Tag)
    requires WellFormedTag(tag) && At(data, i, TagText(tag))
    requires i + |TagText(tag)| < |data|
    requires data[i + |TagText(tag)|] == SEMICOLON || data[i + |TagText(tag)|] == SPACE
    ensures TagAt(data, i) == Ok((tag, i + |TagText(tag)|))
  {
    AtSplit(data, i, KeyText(tag.key), ValueText(tag.value));
    PrintedValueParses(data, i + |KeyText(tag.key)|, tag.value);
    PrintedKeyParses(data, i, tag.key);
  }

  lemma {:induction false} PrintedTagsParse(data: Bytes, i: nat, tags: seq<Tag>)
    requires tags != [] && WellFormedTags(tags) && At(data, i, JoinedTags(tags))
    requires i + |JoinedTags(tags)| < |data| && data[i + |JoinedTags(tags)|] == SPACE
    ensures TagsAt(data, i) == Ok((tags, i + |JoinedTags(tags)|))
    decreases |tags|
  {
    hide At, TagText, TagAt, WellFormedTag;
    var e := i + |TagText(tags[0])|;
    var rest := tags[1..];
    AtSplit(data, i, TagText(tags[0]), MoreTags(rest));
    if rest != [] {
      AtSplit(data, e, [SEMICOLON], JoinedTags(rest));
      AtOne(data, e, SEMICOLON);
      PrintedTagsParse(data, e + 1, rest);
      PrintedTagParses(data, i, tags[0]);
      assert TagsAt(data, i) == Prefixed([tags[0]], TagsAt(data, e + 1));
      assert tags == [tags[0]] + rest;
    } else {
      PrintedTagParses(data, i, tags[0]);
      assert tags == [tags[0]];
    }
  }

  // ----- Parsing then printing -----

  predicate IsNamedEscape(c: byte) {
    c == COLON || c == 115 || c == BACKSLASH || c == 114 || c == 110
  }

  /** From i to the space that ends the tags region, every backslash starts one of the five named escapes. */
  predicate NamedEscapes(data: Bytes, i: nat)
    decreases |data| - i
  {
    if i >= |data| || data[i] == SPACE then true
    else if data[i] == BACKSLASH then
      i + 1 < |data| && IsNamedEscape(data[i + 1]) && NamedEscapes(data, i + 2)
    else NamedEscapes(data, i + 1)
  }

  /** From i to the space that ends the tags region, no backslash is followed by a NUL it would let in. */
  predicate NoNulEscape(data: Bytes, i: nat)
    decreases |data| - i
  {
    if i >= |data| || data[i] == SPACE then true
    else if data[i] == BACKSLASH then
      (i + 1 < |data| ==> data[i + 1] != NUL) && NoNulEscape(data, i + 2)
    else NoNulEscape(data, i + 1)
  }

  /** The offset of the first unescaped space at or after i, or the end of data. */
  function TagsEnd(data: Bytes, i: nat): nat
    decreases |data| - i
  {
    if i >= |data| then |data|
    else if data[i] == SPACE then i
    else TagsEnd(data, if data[i] == BACKSLASH then i + 2 else i + 1)
  }

  lemma {:induction false} PlainRun(data: Bytes, i: nat, j: nat)
    requires i <= j <= |data|
    requires forall k :: i <= k < j ==> data[k] != SPACE && data[k] != BACKSLASH
    ensures NamedEscapes(data, i) == NamedEscapes(data, j)
    ensures NoNulEscape(data, i) == NoNulEscape(data, j)
    ensures TagsEnd(data, i) == TagsEnd(data, j)
    decreases j - i
  {
    if i < j {
      PlainRun(data, i + 1, j);
    }
  }

  /** A byte of a value is printed as it was read, unless it came from an unknown escape. */
  lemma ReadByteAt(data: Bytes, i: nat, b: byte)
    requires i < |data|
    requires if data[i] == BACKSLASH then i + 1 < |data| && b == Unescape(data[i + 1])
             else b == data[i] && EscapeByte(b) == [b]
    ensures At(data, i, EscapeByte(b)) <==> data[i] == BACKSLASH ==> IsNamedEscape(data[i + 1])
    ensures i + |EscapeByte(b)| <= i + if data[i] == BACKSLASH then 2 else 1
    ensures At(data, i, EscapeByte(b)) ==> i + |EscapeByte(b)| == i + if data[i] == BACKSLASH then 2 else 1
  {
    if |EscapeByte(b)| == 1 {
      AtOne(data, i, b);
    } else {
      assert data[i..i + 2] == [data[i], data[i + 1]];
    }
  }

  lemma {:induction false} ParsedValuePrints(data: Bytes, i: nat)
    requires i <= |data| && ValueAt(data, i).Ok? && ValueAt(data, i).value.1 < |data|
    ensures var (v, e) := ValueAt(data, i).value;
            && i + |Escape(v)| <= e
            && (NamedEscapes(data, i) <==> At(data, i, Escape(v)) && NamedEscapes(data, e))
            && (At(data, i, Escape(v)) ==> i + |Escape(v)| == e)
    decreases |data| - i
  {
    hide At, EscapeByte, IsNamedEscape;
    if data[i] != SEMICOLON && data[i] != SPACE {
      var step := if data[i] == BACKSLASH then 2 else 1;
      ParsedValuePrints(data, i + step);
      var v := ValueAt(data, i).value.0;
      assert v[1..] == ValueAt(data, i + step).value.0;
      PlainByte(data[i]);
      ReadByteAt(data, i, v[0]);
      AtSplit(data, i, EscapeByte(v[0]), Escape(v[1..]));
    } else {
      AtEmpty(data, i);
    }
  }

  lemma {:induction false} ParsedValueRegion(data: Bytes, i: nat)
    requires i <= |data| && ValueAt(data, i).Ok? && ValueAt(data, i).value.1 < |data|
    ensures var (v, e) := ValueAt(data, i).value;
            && (NoNulEscape(data, i) <==> NUL !in v && NoNulEscape(data, e))
            && TagsEnd(data, i) == TagsEnd(data, e)
    decreases |data| - i
  {
    if data[i] != SEMICOLON && data[i] != SPACE {
      var step := if data[i] == BACKSLASH then 2 else 1;
      ParsedValueRegion(data, i + step);
      var v := ValueAt(data, i).value.0;
      assert v[1..] == ValueAt(data, i + step).value.0;
      assert NUL in v <==> v[0] == NUL || NUL in v[1..];
    }
  }

  lemma PlainByte(b: byte)
    ensures EscapeByte(b) == [b] || !IsTagValueByte(b)
  {
  }

  lemma ParsedKeyPrints(data: Bytes, i: nat)
    requires i <= |data| && KeyAt(data, i).Ok?
    ensures var (clientOnly, nameStart, nameEnd) := KeyAt(data, i).value;
            var key := TagKey(clientOnly, data[nameStart..nameEnd]);
            && At(data, i, KeyText(key)) && i + |KeyText(key)| == nameEnd
            && IsKeyName(key.name)
            && NamedEscapes(data, i) == NamedEscapes(data, nameEnd)
            && NoNulEscape(data, i) == NoNulEscape(data, nameEnd)
            && TagsEnd(data, i) == TagsEnd(data, nameEnd)
  {
    var (clientOnly, nameStart, nameEnd) := KeyAt(data, i).value;
    var flag: Bytes := if clientOnly then [PLUS] else [];
    AtOne(data, i, PLUS);
    AtSplit(data, i, flag, data[nameStart..nameEnd]);
    PlainRun(data, i, nameEnd);
  }

  lemma ParsedOptionPrints(data: Bytes, i: nat)
    requires i <= |data| && OptionalValueAt(data, i).Ok? && OptionalValueAt(data, i).value.1 < |data|
    ensures var (value, e) := OptionalValueAt(data, i).value;
            && i + |ValueText(value)| <= e
            && (NamedEscapes(data, i) <==> At(data, i, ValueText(value)) && NamedEscapes(data, e))
            && (At(data, i, ValueText(value)) ==> i + |ValueText(value)| == e)
            && (NoNulEscape(data, i) <==> (value.Some? ==> NUL !in value.value) && NoNulEscape(data, e))
            && TagsEnd(data, i) == TagsEnd(data, e)
  {
    if data[i] == EQUALS {
      ParsedValuePrints(data, i + 1);
      ParsedValueRegion(data, i + 1);
      var v := ValueAt(data, i + 1).value.0;
      AtOne(data, i, EQUALS);
      AtSplit(data, i, [EQUALS], Escape(v));
    }
  }

  lemma ParsedTagPrints(data: Bytes, i: nat)
    requires i <= |data| && TagAt(data, i).Ok? && TagAt(data, i).value.1 < |data|
    ensures var (tag, e) := TagAt(data, i).value;
            && i + |TagText(tag)| <= e
            && (NamedEscapes(data, i) <==> At(data, i, TagText(tag)) && NamedEscapes(data, e))
            && (At(data, i, TagText(tag)) ==> i + |TagText(tag)| == e)
            && (NoNulEscape(data, i) <==> WellFormedTag(tag) && NoNulEscape(data, e))
            && TagsEnd(data, i) == TagsEnd(data, e)
  {
    hide At, NamedEscapes, NoNulEscape, TagsEnd, KeyText, ValueText, KeyAt, OptionalValueAt;
    var (tag, e) := TagAt(data, i).value;
    ParsedKeyPrints(data, i);
    ParsedOptionPrints(data, KeyAt(data, i).value.2);
    AtSplit(data, i, KeyText(tag.key), ValueText(tag.value));
  }

  lemma {:induction false} ParsedTagsPrint(data: Bytes, i: nat)
    requires i <= |data| && TagsAt(data, i).Ok?
    ensures var (tags, e) := TagsAt(data, i).value;
            && i + |JoinedTags(tags)| <= e
            && (NamedEscapes(data, i) <==> At(data, i, JoinedTags(tags)))
            && (At(data, i, JoinedTags(tags)) ==> i + |JoinedTags(tags)| == e)
            && (NoNulEscape(data, i) <==> WellFormedTags(tags))
            && TagsEnd(data, i) == e && e < |data| && data[e] == SPACE && tags != []
    decreases |data| - i
  {
    hide At, TagText, TagAt, WellFormedTag;
    var (tags, last) := TagsAt(data, i).value;
    var (tag, e) := TagAt(data, i).value;
    ParsedTagPrints(data, i);
    if data[e] == SEMICOLON {
      ParsedTagsPrint(data, e + 1);
      var rest := TagsAt(data, e + 1).value.0;
      assert tags == [tag] + rest && tags[1..] == rest;
      AtSplit(data, i, TagText(tag), MoreTags(rest));
      AtSplit(data, e, [SEMICOLON], JoinedTags(rest));
      AtOne(data, e, SEMICOLON);
      PlainRun(data, e, e + 1);
    } else {
      assert tags == [tag] && TagText(tag) + [] == TagText(tag);
    }
  }

  // ----- The tags region with every escape written by name -----

  /** From i to the space that ends the tags region: a named escape stays, any other is replaced by its byte, escaped if
      it must be, and a lone backslash is dropped. */
  function Normalized(data: Bytes, i: nat): Bytes
    decreases |data| - i
  {
    if i >= |data| || data[i] == SPACE then []
    else if data[i] == BACKSLASH then
      (if i + 1 >= |data| then []
       else if IsNamedEscape(data[i + 1]) then [BACKSLASH, data[i + 1]]
       else EscapeByte(data[i + 1])) + Normalized(data, i + 2)
    else [data[i]] + Normalized(data, i + 1)
  }

  lemma {:induction false} PlainIsNormal(data: Bytes, i: nat, j: nat)
    requires i <= j <= |data|
    requires forall k :: i <= k < j ==> data[k] != SPACE && data[k] != BACKSLASH
    ensures Normalized(data, i) == data[i..j] + Normalized(data, j)
    decreases j - i
  {
    if i < j {
      PlainIsNormal(data, i + 1, j);
      assert data[i..j] == [data[i]] + data[i + 1..j];
      Associates([data[i]], data[i + 1..j], Normalized(data, j));
    } else {
      AddNothing(Normalized(data, j));
    }
  }

  lemma NamedIsItself(c: byte)
    requires IsNamedEscape(c)
    ensures EscapeByte(Unescape(c)) == [BACKSLASH, c]
  {
  }

  lemma UnnamedIsVerbatim(c: byte)
    requires !IsNamedEscape(c)
    ensures Unescape(c) == c
  {
  }

  lemma {:induction false} ParsedValueIsNormal(data: Bytes, i: nat)
    requires i <= |data| && ValueAt(data, i).Ok? && ValueAt(data, i).value.1 < |data|
    ensures var (v, e) := ValueAt(data, i).value;
            Normalized(data, i) == Escape(v) + Normalized(data, e)
    decreases |data| - i
  {
    hide EscapeByte, IsNamedEscape, Unescape;
    var (v, e) := ValueAt(data, i).value;
    if data[i] == SEMICOLON || data[i] == SPACE {
      AddNothing(Normalized(data, i));
    } else {
      var step := if data[i] == BACKSLASH then 2 else 1;
      ParsedValueIsNormal(data, i + step);
      assert v[1..] == ValueAt(data, i + step).value.0;
      PlainByte(data[i]);
      if data[i] == BACKSLASH {
        if IsNamedEscape(data[i + 1]) {
          NamedIsItself(data[i + 1]);
        } else {
          UnnamedIsVerbatim(data[i + 1]);
        }
      }
      Associates(EscapeByte(v[0]), Escape(v[1..]), Normalized(data, e));
    }
  }

  lemma ParsedTagIsNormal(data: Bytes, i: nat)
    requires i <= |data| && TagAt(data, i).Ok? && TagAt(data, i).value.1 < |data|
    ensures var (tag, e) := TagAt(data, i).value;
            Normalized(data, i) == TagText(tag) + Normalized(data, e)
  {
    hide Normalized, Escape, OptionalValueAt, KeyAt, ValueText, KeyText;
    var (tag, e) := TagAt(data, i).value;
    var (clientOnly, nameStart, nameEnd) := KeyAt(data, i).value;
    KeyIsNormal(data, i);
    OptionIsNormal(data, nameEnd);
    Associates(KeyText(tag.key), ValueText(tag.value), Normalized(data, e));
  }

  lemma KeyIsNormal(data: Bytes, i: nat)
    requires i <= |data| && KeyAt(data, i).Ok?
    ensures var (clientOnly, nameStart, nameEnd) := KeyAt(data, i).value;
            Normalized(data, i) == KeyText(TagKey(clientOnly, data[nameStart..nameEnd])) + Normalized(data, nameEnd)
  {
    hide Normalized;
    var (clientOnly, nameStart, nameEnd) := KeyAt(data, i).value;
    PlainIsNormal(data, i, nameEnd);
    assert data[i..nameEnd] == KeyText(TagKey(clientOnly, data[nameStart..nameEnd]));
  }

  lemma OptionIsNormal(data: Bytes, i: nat)
    requires i <= |data| && OptionalValueAt(data, i).Ok? && OptionalValueAt(data, i).value.1 < |data|
    ensures var (value, e) := OptionalValueAt(data, i).value;
            Normalized(data, i) == ValueText(value) + Normalized(data, e)
  {
    hide Normalized, Escape, ValueAt;
    var (value, e) := OptionalValueAt(data, i).value;
    if value.Some? {
      PlainIsNormal(data, i, i + 1);
      ParsedValueIsNormal(data, i + 1);
      assert data[i..i + 1] == [EQUALS];
      Associates([EQUALS], Escape(value.value), Normalized(data, e));
    } else {
      AddNothing(Normalized(data, e));
    }
  }

  /** Printed, the tags parsed from a region are its normal form; for every region, whatever it escapes. */
  lemma {:induction false} ParsedTagsPrintNormal(data: Bytes, i: nat)
    requires i <= |data| && TagsAt(data, i).Ok?
    ensures JoinedTags(TagsAt(data, i).value.0) == Normalized(data, i)
    decreases |data| - i
  {
    hide TagText, TagAt, Normalized;
    var (tags, last) := TagsAt(data, i).value;
    var (tag, e) := TagAt(data, i).value;
    ParsedTagIsNormal(data, i);
    if data[e] == SEMICOLON {
      ParsedTagsPrintNormal(data, e + 1);
      var rest := TagsAt(data, e + 1).value.0;
      assert tags == [tag] + rest && tags[1..] == rest;
      TagsAreSome(data, e + 1);
      PlainIsNormal(data, e, e + 1);
      assert data[e..e + 1] == [SEMICOLON];
    } else {
      EndIsNormal(data, e);
      assert tags == [tag];
    }
  }

  lemma TagsAreSome(data: Bytes, i: nat)
    requires i <= |data| && TagsAt(data, i).Ok?
    ensures TagsAt(data, i).value.0 != []
  {
    hide TagAt;
  }

  lemma EndIsNormal(data: Bytes, i: nat)
    requires i < |data| && data[i] == SPACE
    ensures Normalized(data, i) == []
  {
  }

  /** A region that only has named escapes is its own normal form. */
  lemma {:induction false} NamedIsNormal(data: Bytes, i: nat)
    requires i <= |data| && NamedEscapes(data, i)
    ensures i <= TagsEnd(data, i) <= |data| && Normalized(data, i) == data[i..TagsEnd(data, i)]
    decreases |data| - i
  {
    hide IsNamedEscape, EscapeByte, Normalized;
    var e := TagsEnd(data, i);
    if i == |data| || data[i] == SPACE {
      NothingToNormalize(data, i);
    } else if data[i] == BACKSLASH {
      NamedIsNormal(data, i + 2);
      NamedStep(data, i);
      PairInFront(data, i, e);
    } else {
      NamedIsNormal(data, i + 1);
      PlainIsNormal(data, i, i + 1);
      ByteInFront(data, i, e);
    }
  }

  lemma NothingToNormalize(data: Bytes, i: nat)
    requires i == |data| || (i < |data| && data[i] == SPACE)
    ensures Normalized(data, i) == []
  {
  }

  lemma NamedStep(data: Bytes, i: nat)
    requires i + 1 < |data| && data[i] == BACKSLASH && IsNamedEscape(data[i + 1])
    ensures Normalized(data, i) == [data[i], data[i + 1]] + Normalized(data, i + 2)
  {
  }

  lemma PairInFront(data: Bytes, i: nat, e: nat)
    requires i + 2 <= e <= |data|
    ensures data[i..e] == [data[i], data[i + 1]] + data[i + 2..e]
  {
  }

  lemma ByteInFront(data: Bytes, i: nat, e: nat)
    requires i + 1 <= e <= |data|
    ensures data[i..e] == data[i..i + 1] + data[i + 1..e]
  {
  }

  /** The five escapes of the IRCv3 message-tags specification, both ways. */
  lemma TheFiveEscapes()
    ensures var raw: Bytes := [SEMICOLON, SPACE, BACKSLASH, CR, LF];
            // \: \s \\ \r \n
            var escaped: Bytes := [92, 58, 92, 115, 92, 92, 92, 114, 92, 110];
            Escape(raw) == escaped && ValueAt(escaped + [SPACE], 0) == Ok((raw, 10))
  {
    var raw: Bytes := [SEMICOLON, SPACE, BACKSLASH, CR, LF];
    var escaped: Bytes := [92, 58, 92, 115, 92, 92, 92, 114, 92, 110];
    assert raw[1..] == [SPACE, BACKSLASH, CR, LF] && raw[1..][1..] == [BACKSLASH, CR, LF];
    assert raw[1..][1..][1..] == [CR, LF] && raw[1..][1..][1..][1..] == [LF] && raw[1..][1..][1..][1..][1..] == [];
    assert Escape([LF]) == [92, 110];
    assert Escape([CR, LF]) == [92, 114, 92, 110];
    assert Escape([BACKSLASH, CR, LF]) == [92, 92, 92, 114, 92, 110];
    assert Escape(raw) == escaped;
    assert (escaped + [SPACE])[..10] == escaped;
    EscapedValueParses(escaped + [SPACE], 0, raw);
  }

  lemma {:induction false} NulFreeRegion(data: Bytes, i: nat)
    requires NUL !in data
    ensures NoNulEscape(data, i)
    decreases |data| - i
  {
    if i < |data| && data[i] != SPACE {
      NulFreeRegion(data, if data[i] == BACKSLASH then i + 2 else i + 1);
    }
  }

  lemma {:induction false} NamedRegion(data: Bytes, i: nat)
    requires NamedEscapes(data, i)
    ensures NoNulEscape(data, i)
    decreases |data| - i
  {
    if i < |data| && data[i] != SPACE {
      NamedRegion(data, if data[i] == BACKSLASH then i + 2 else i + 1);
    }
  }

  // ----- What is printed holds no byte that ends a line -----

  lemma {:induction false} EscapeIsClean(v: Bytes)
    requires NUL !in v
    ensures Clean(Escape(v))
  {
    if v != [] {
      EscapeIsClean(v[1..]);
    }
  }

  lemma {:induction false} JoinedTagsAreClean(tags: seq<Tag>)
    requires WellFormedTags(tags)
    ensures Clean(JoinedTags(tags))
    decreases |tags|
  {
    if tags != [] {
      var tag := tags[0];
      assert WellFormedTag(tag);
      if tag.value.Some? {
        EscapeIsClean(tag.value.value);
      }
      assert Clean(TagText(tag));
      hide TagText;
      JoinedTagsAreClean(tags[1..]);
    }
  }

  // ----- The errors of the tags region -----

  lemma {:induction false} ValueErrors(data: Bytes, i: nat)
    requires i <= |data| && ValueAt(data, i).Err?
    ensures var e := ValueAt(data, i).error; e.InvalidTagEscape? && e.at < |data| && IsForbidden(data[e.at])
    decreases |data| - i
  {
    if IsTagValueByte(data[i]) {
      ValueErrors(data, i + 1);
    } else if data[i] == BACKSLASH {
      ValueErrors(data, i + 2);
    }
  }

  /** No key starts at an offset: after an optional plus sign comes no byte of a name. */
  predicate NoKeyAt(data: Bytes, at: nat) {
    at <= |data| &&
    var i := if at < |data| && data[at] == PLUS then at + 1 else at;
    i < |data| ==> !IsTagKeyByte(data[i])
  }

  /** A key is wanted at the start of the tags and behind a semicolon. */
  predicate KeyIsWanted(data: Bytes, start: nat, at: nat) {
    at == start || (0 < at <= |data| && data[at - 1] == SEMICOLON)
  }

  /** A key name ends at an offset, before a byte that can follow no tag key. */
  predicate KeyIsCutOff(data: Bytes, at: nat) {
    && 0 < at < |data| && IsTagKeyByte(data[at - 1]) && !IsTagKeyByte(data[at])
    && data[at] != EQUALS && data[at] != SEMICOLON && data[at] != SPACE
  }

  /** No key where one is wanted, a key cut off, or the end of the line; or a NUL, CR or LF in a value. */
  predicate TagError(data: Bytes, start: nat, e: ParseError) {
    || (e.InvalidTagKey? && ((KeyIsWanted(data, start, e.at) && NoKeyAt(data, e.at))
                             || KeyIsCutOff(data, e.at) || e.at == |data|))
    || (e.InvalidTagEscape? && e.at < |data| && IsForbidden(data[e.at]))
  }

  lemma {:induction false} TagsErrors(data: Bytes, pos: nat)
    requires pos <= |data| && TagsAt(data, pos).Err?
    ensures TagError(data, pos, TagsAt(data, pos).error)
    decreases |data| - pos
  {
    hide TagAt, KeyIsCutOff, NoKeyAt;
    if TagAt(data, pos).Err? {
      TagErrors(data, pos);
    } else {
      TagEnds(data, pos);
      var e := TagAt(data, pos).value.1;
      if e < |data| && data[e] == SEMICOLON {
        TagsErrors(data, e + 1);
      }
    }
  }

  /** A tag ends at the end of the line, at a separator, or where its key is cut off. */
  lemma TagEnds(data: Bytes, pos: nat)
    requires pos <= |data| && TagAt(data, pos).Ok?
    ensures var e := TagAt(data, pos).value.1;
            e == |data| || data[e] == SEMICOLON || data[e] == SPACE || KeyIsCutOff(data, e)
  {
    hide ValueAt;
    var (_, nameStart, nameEnd) := KeyAt(data, pos).value;
    assert IsTagKeyByte(data[nameEnd - 1]);
  }

  lemma TagErrors(data: Bytes, pos: nat)
    requires pos <= |data| && TagAt(data, pos).Err?
    ensures TagError(data, pos, TagAt(data, pos).error)
  {
    hide ValueAt, KeyIsCutOff;
    if KeyAt(data, pos).Ok? {
      ValueErrors(data, KeyAt(data, pos).value.2 + 1);
    }
  }
}
