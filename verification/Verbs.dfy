/** The command verb: an alphabetic word or a three-digit numeric. */
module Verbs {
  import opened Wrappers
  import opened Widths
  import opened Octets
  import opened ByteClasses
  import opened Decimal

  datatype Verb = Numeric(code: u16) | Word(word: Bytes)

  function VerbText(verb: Verb): Bytes {
    match verb
    case Word(w) => w
    case Numeric(code) =>
      var clamped := code % 1000;
      [DigitByte(clamped / 100), DigitByte(clamped / 10 % 10), DigitByte(clamped % 10)]
  }

  method WriteVerb(verb: Verb, out: BytesMut)
    modifies out
    ensures out.data == old(out.data) + VerbText(verb)
  {
    match verb {
      case Word(w) =>
        out.ExtendFromSlice(w);
      case Numeric(code) =>
        var clamped := code % 1000;
        out.PutU8(DigitByte(clamped / 100));
        out.PutU8(DigitByte(clamped / 10 % 10));
        out.PutU8(DigitByte(clamped % 10));
    }
  }

  function VerbAt(data: Bytes, start: nat): (r: Result<(Verb, nat), ParseError>)
    requires start <= |data|
    ensures r.Ok? ==> start < r.value.1 <= |data|
  {
    if start == |data| then Err(UnexpectedEnd)
    else if IsDigit(data[start]) then
      if |data| < start + 3 || !IsDigit(data[start + 1]) || !IsDigit(data[start + 2]) then Err(InvalidCommand(start))
      else if start + 3 < |data| && data[start + 3] != SPACE then Err(InvalidCommand(start))
      else
        var code := DigitValue(data[start]) * 100 + DigitValue(data[start + 1]) * 10 + DigitValue(data[start + 2]);
        Ok((Numeric(code), start + 3))
    else if !IsLetter(data[start]) then Err(InvalidCommand(start))
    else
      var e := Span(data, start, IsLetter);
      if e < |data| && data[e] != SPACE then Err(InvalidCommand(start)) else Ok((Word(data[start..e]), e))
  }

  method ParseVerb(data: Bytes, start: nat) returns (r: Result<(Verb, nat), ParseError>)
    requires start <= |data|
    ensures r == VerbAt(data, start)
  {
    if start >= |data| {
      return Err(UnexpectedEnd);
    }
    var first := data[start];
    if IsDigit(first) {
      if |data| < start + 3 || !IsDigit(data[start + 1]) || !IsDigit(data[start + 2]) {
        return Err(InvalidCommand(start));
      }
      var after := start + 3;
      if after < |data| && data[after] != SPACE {
        return Err(InvalidCommand(start));
      }
      var code := DigitValue(data[start]) * 100 + DigitValue(data[start + 1]) * 10 + DigitValue(data[start + 2]);
      return Ok((Numeric(code), after));
    }
    if !IsLetter(first) {
      return Err(InvalidCommand(start));
    }
    var i := start;
    while i < |data| && IsLetter(data[i])
      invariant start <= i <= |data|
      invariant Span(data, start, IsLetter) == Span(data, i, IsLetter)
    {
      i := i + 1;
    }
    if i < |data| && data[i] != SPACE {
      return Err(InvalidCommand(start));
    }
    return Ok((Word(data[start..i]), i));
  }

  predicate WellFormedVerb(verb: Verb) {
    match verb
    case Numeric(code) => code <= 999
    case Word(w) => w != [] && forall k :: 0 <= k < |w| ==> IsLetter(w[k])
  }

  lemma DecimalDigits(h: nat, t: nat, u: nat)
    requires h < 10 && t < 10 && u < 10
    ensures (h * 100 + t * 10 + u) / 100 == h
    ensures (h * 100 + t * 10 + u) / 10 == h * 10 + t
    ensures (h * 10 + t) % 10 == t
    ensures (h * 100 + t * 10 + u) % 10 == u
  {
  }

  /** Three digits and the number they write. */
  lemma ThreeDigits(h: nat, t: nat, u: nat)
    requires h < 10 && t < 10 && u < 10
    ensures h * 100 + t * 10 + u <= 999
    ensures VerbText(Numeric(h * 100 + t * 10 + u)) == [DigitByte(h), DigitByte(t), DigitByte(u)]
  {
    hide DigitByte;
    DecimalDigits(h, t, u);
    assert (h * 100 + t * 10 + u) % 1000 == h * 100 + t * 10 + u;
  }

  lemma PrintedNumericParses(data: Bytes, i: nat, h: nat, t: nat, u: nat)
    requires h < 10 && t < 10 && u < 10
    requires At(data, i, VerbText(Numeric(h * 100 + t * 10 + u)))
    requires i + 3 < |data| ==> data[i + 3] == SPACE
    ensures VerbAt(data, i) == Ok((Numeric(h * 100 + t * 10 + u), i + 3))
  {
    hide At, VerbText;
    ThreeDigits(h, t, u);
    AtThree(data, i, DigitByte(h), DigitByte(t), DigitByte(u));
  }

  lemma AtThree(data: Bytes, i: nat, a: byte, b: byte, c: byte)
    ensures At(data, i, [a, b, c]) <==> i + 3 <= |data| && data[i] == a && data[i + 1] == b && data[i + 2] == c
  {
    if i + 3 <= |data| {
      assert data[i..i + 3] == [data[i], data[i + 1], data[i + 2]];
    }
  }

  lemma PrintedWordParses(data: Bytes, i: nat, w: Bytes)
    requires WellFormedVerb(Word(w)) && At(data, i, w)
    requires i + |w| < |data| ==> data[i + |w|] == SPACE
    ensures VerbAt(data, i) == Ok((Word(w), i + |w|))
  {
    var e := i + |w|;
    assert data[i..e] == w;
    assert forall k :: i <= k < e ==> data[k] == w[k - i];
    SpanIs(data, i, e, IsLetter);
  }

  lemma CodeDigits(code: nat)
    ensures code == code / 100 * 100 + code / 10 % 10 * 10 + code % 10
  {
  }

  lemma WordText(w: Bytes)
    ensures VerbText(Word(w)) == w
  {
  }

  lemma NumericLength(code: u16)
    ensures |VerbText(Numeric(code))| == 3
  {
  }

  lemma PrintedVerbParses(data: Bytes, i: nat, verb: Verb)
    requires WellFormedVerb(verb) && At(data, i, VerbText(verb))
    requires i + |VerbText(verb)| < |data| ==> data[i + |VerbText(verb)|] == SPACE
    ensures VerbAt(data, i) == Ok((verb, i + |VerbText(verb)|))
  {
    hide At, VerbAt, VerbText;
    match verb {
      case Numeric(code) =>
        CodeDigits(code);
        NumericLength(code);
        PrintedNumericParses(data, i, code / 100, code / 10 % 10, code % 10);
      case Word(w) =>
        WordText(w);
        PrintedWordParses(data, i, w);
    }
  }

  /** A numeric prints as three digits that write its code. */
  lemma NumericShowsItsCode(code: u16)
    requires code <= 999
    ensures var t := VerbText(Numeric(code)); |t| == 3 && AllDigits(t) && Value(t) == code
  {
    hide VerbText, Value, AllDigits, DigitByte;
    CodeDigits(code);
    ShowsDigits(code / 100, code / 10 % 10, code % 10);
  }

  lemma ShowsDigits(h: nat, t: nat, u: nat)
    requires h < 10 && t < 10 && u < 10
    ensures h * 100 + t * 10 + u <= 999
    ensures var w := VerbText(Numeric(h * 100 + t * 10 + u));
            |w| == 3 && AllDigits(w) && Value(w) == h * 100 + t * 10 + u
  {
    hide VerbText, Value, AllDigits;
    ThreeDigits(h, t, u);
    ThreeDigitsWrite(h, t, u);
  }

  lemma ThreeDigitsWrite(h: nat, t: nat, u: nat)
    requires h < 10 && t < 10 && u < 10
    ensures AllDigits([DigitByte(h), DigitByte(t), DigitByte(u)])
    ensures Value([DigitByte(h), DigitByte(t), DigitByte(u)]) == h * 100 + t * 10 + u
  {
    var a, b, c := DigitByte(h), DigitByte(t), DigitByte(u);
    assert [a, b, c][..2] == [a, b] && [a, b][..1] == [a] && [a][..0] == [];
    assert Value([a]) == h;
    assert Value([a, b]) == h * 10 + t;
  }

  lemma ParsedVerbPrints(data: Bytes, i: nat)
    requires i <= |data| && VerbAt(data, i).Ok?
    ensures var (verb, e) := VerbAt(data, i).value;
            && At(data, i, VerbText(verb)) && i + |VerbText(verb)| == e && WellFormedVerb(verb)
            && Span(data, i, NotSpace) == e
  {
    var (verb, e) := VerbAt(data, i).value;
    SpanIs(data, i, e, NotSpace);
    if IsDigit(data[i]) {
      ParsedNumericPrints(data, i);
    }
  }

  lemma ParsedNumericPrints(data: Bytes, i: nat)
    requires i < |data| && IsDigit(data[i]) && VerbAt(data, i).Ok?
    ensures var (verb, e) := VerbAt(data, i).value;
            && At(data, i, VerbText(verb)) && |VerbText(verb)| == 3 && WellFormedVerb(verb)
  {
    hide At, VerbText;
    ThreeDigits(DigitValue(data[i]), DigitValue(data[i + 1]), DigitValue(data[i + 2]));
    AtThree(data, i, data[i], data[i + 1], data[i + 2]);
  }
}
