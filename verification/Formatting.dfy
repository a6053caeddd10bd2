/** mIRC formatting codes: what a control sequence is, the style it sets, and the spans between sequences. */
module Formatting {
  import opened Wrappers
  import opened Octets
  import opened Decimal

  const BOLD: byte := 0x02
  const COLOR: byte := 0x03
  const HEX_COLOR: byte := 0x04
  const RESET: byte := 0x0F
  const MONOSPACE: byte := 0x11
  const REVERSE: byte := 0x16
  const ITALIC: byte := 0x1D
  const STRIKETHROUGH: byte := 0x1E
  const UNDERLINE: byte := 0x1F

  datatype Color = Palette(index: byte) | Rgb(red: byte, green: byte, blue: byte)

  datatype Style = Style(fg: Option<Color>, bg: Option<Color>, bold: bool, italic: bool, underline: bool,
                         strikethrough: bool, monospace: bool, reverse: bool)

  const PLAIN: Style := Style(None, None, false, false, false, false, false, false)

  datatype StyledSpan = StyledSpan(text: Bytes, style: Style)

  // ----- Colors -----

  predicate IsHexDigit(b: byte) {
    IsDigit(b) || 97 <= b <= 102 || 65 <= b <= 70
  }

  function HexDigit(b: byte): (v: byte)
    ensures v < 16
  {
    if IsDigit(b) then b - 48
    else if 97 <= b <= 102 then b - 87
    else if 65 <= b <= 70 then b - 55
    else 0
  }

  function HexPair(hi: byte, lo: byte): byte {
    HexDigit(hi) * 16 + HexDigit(lo)
  }

  function AtMost98(n: int): byte
    requires 0 <= n < 256
  {
    if n <= 98 then n as byte else 98
  }

  /** Up to two decimal digits, and how many were read. */
  function PaletteColor(s: Bytes): (r: (Option<Color>, nat))
    ensures r.1 <= |s| && r.1 <= 2
  {
    if |s| >= 1 && IsDigit(s[0]) then
      if |s| >= 2 && IsDigit(s[1]) then
        (Some(Palette(AtMost98((s[0] - 48) as int * 10 + (s[1] - 48) as int))), 2)
      else (Some(Palette(s[0] - 48)), 1)
    else (None, 0)
  }

  method ReadPaletteColor(s: Bytes) returns (color: Option<Color>, consumed: nat)
    ensures (color, consumed) == PaletteColor(s)
  {
    var value: int := 0;
    consumed := 0;
    while consumed < 2
      invariant 0 <= consumed <= 2 && consumed <= |s|
      invariant forall k :: 0 <= k < consumed ==> IsDigit(s[k])
      invariant consumed == 0 ==> value == 0
      invariant consumed == 1 ==> value == (s[0] - 48) as int
      invariant consumed == 2 ==> value == (s[0] - 48) as int * 10 + (s[1] - 48) as int
    {
      if consumed < |s| && IsDigit(s[consumed]) {
        value := value * 10 + (s[consumed] - 48) as int;
        consumed := consumed + 1;
      } else {
        break;
      }
    }
    if consumed == 0 {
      return None, 0;
    }
    color := Some(Palette(AtMost98(value)));
  }

  /** Exactly six hex digits. */
  function HexColor(s: Bytes): (r: (Option<Color>, nat))
    ensures r.1 <= |s|
  {
    if |s| >= 6 && forall k :: 0 <= k < 6 ==> IsHexDigit(s[k]) then
      (Some(Rgb(HexPair(s[0], s[1]), HexPair(s[2], s[3]), HexPair(s[4], s[5]))), 6)
    else (None, 0)
  }

  // ----- The simple meaning -----

  predicate IsControl(b: byte) {
    b == BOLD || b == COLOR || b == HEX_COLOR || b == RESET || b == MONOSPACE || b == REVERSE || b == ITALIC
    || b == STRIKETHROUGH || b == UNDERLINE
  }

  predicate NotControl(b: byte) {
    !IsControl(b)
  }

  function ColorAt(kind: byte, s: Bytes): (r: (Option<Color>, nat))
    ensures r.1 <= |s|
  {
    if kind == COLOR then PaletteColor(s) else HexColor(s)
  }

  /** A color, and after a comma perhaps a background: how many bytes they take. */
  function ColorsLength(kind: byte, s: Bytes): (n: nat)
    ensures n <= |s|
  {
    var fg := ColorAt(kind, s).1;
    if fg > 0 && fg < |s| && s[fg] == COMMA then
      var bg := ColorAt(kind, s[fg + 1..]).1;
      if bg > 0 then fg + 1 + bg else fg
    else fg
  }

  /** The length of the control sequence that starts a text. */
  function ControlLength(s: Bytes): (n: nat)
    requires s != [] && IsControl(s[0])
    ensures 1 <= n <= |s|
  {
    if s[0] == COLOR || s[0] == HEX_COLOR then 1 + ColorsLength(s[0], s[1..]) else 1
  }

  /** What a whole control sequence does to the style. */
  function Applied(style: Style, code: Bytes): Style
    requires code != []
  {
    var b := code[0];
    if b == BOLD then style.(bold := !style.bold)
    else if b == ITALIC then style.(italic := !style.italic)
    else if b == UNDERLINE then style.(underline := !style.underline)
    else if b == STRIKETHROUGH then style.(strikethrough := !style.strikethrough)
    else if b == MONOSPACE then style.(monospace := !style.monospace)
    else if b == REVERSE then style.(reverse := !style.reverse)
    else if b == RESET then PLAIN
    else
      var (fg, n) := ColorAt(b, code[1..]);
      if n == 0 then style.(fg := None, bg := None)
      else if n + 1 == |code| then style.(fg := fg)
      else if n + 2 <= |code| then style.(fg := fg, bg := ColorAt(b, code[n + 2..]).0)
      else style
  }

  /** Byte by byte: control sequences change the style, every other byte carries the style so far. */
  function Styled(s: Bytes, style: Style): seq<(byte, Style)>
    decreases |s|
  {
    if s == [] then []
    else if IsControl(s[0]) then Styled(s[ControlLength(s)..], Applied(style, s[..ControlLength(s)]))
    else [(s[0], style)] + Styled(s[1..], style)
  }

  /** The runs between control sequences. */
  function Spans(s: Bytes, style: Style): seq<StyledSpan>
    decreases |s|
  {
    if s == [] then []
    else if IsControl(s[0]) then Spans(s[ControlLength(s)..], Applied(style, s[..ControlLength(s)]))
    else
      var e := Span(s, 0, NotControl);
      [StyledSpan(s[..e], style)] + Spans(s[e..], style)
  }

  /** A color is read from its own bytes alone. */
  lemma ColorIsLocal(kind: byte, s: Bytes, m: nat)
    requires ColorAt(kind, s).1 <= m <= |s|
    ensures ColorAt(kind, s[..m]) == ColorAt(kind, s)
  {
  }

  /** The style change of the colors after a color byte, read off the text that follows it. */
  lemma AppliedColors(style: Style, s: Bytes)
    requires s != [] && (s[0] == COLOR || s[0] == HEX_COLOR)
    ensures var rest := s[1..];
      var (fg, n) := ColorAt(s[0], rest);
      var code := s[..ControlLength(s)];
      Applied(style, code) ==
        if n == 0 then style.(fg := None, bg := None)
        else if ControlLength(s) == n + 1 then style.(fg := fg)
        else style.(fg := fg, bg := ColorAt(s[0], rest[n + 1..]).0)
  {
    hide ColorAt;
    var rest := s[1..];
    var (fg, n) := ColorAt(s[0], rest);
    var len := ControlLength(s);
    var code := s[..len];
    assert code[1..] == rest[..len - 1];
    ColorIsLocal(s[0], rest, len - 1);
    if len > n + 1 {
      assert code[n + 2..] == rest[n + 1..][..len - n - 2];
      ColorIsLocal(s[0], rest[n + 1..], len - n - 2);
    }
  }

  // ----- The parser -----

  method ReadColor(kind: byte, s: Bytes) returns (color: Option<Color>, consumed: nat)
    ensures (color, consumed) == ColorAt(kind, s)
  {
    if kind == COLOR {
      color, consumed := ReadPaletteColor(s);
    } else {
      var r := HexColor(s);
      color, consumed := r.0, r.1;
    }
  }

  /** The two color branches: the byte at i is ^C or ^D. */
  method ReadColors(input: Bytes, i: nat, style: Style) returns (next: nat, current: Style)
    requires i < |input| && (input[i] == COLOR || input[i] == HEX_COLOR)
    ensures next == i + ControlLength(input[i..])
    ensures current == Applied(style, input[i..][..ControlLength(input[i..])])
  {
    hide ColorAt, Applied;
    AppliedColors(style, input[i..]);
    assert input[i..][1..] == input[i + 1..];
    current := style;
    next := i + 1;
    var fg, consumed := ReadColor(input[i], input[next..]);
    next := next + consumed;
    if consumed == 0 {
      current := current.(fg := None, bg := None);
    } else {
      current := current.(fg := fg);
      if next < |input| && input[next] == COMMA {
        assert input[i + 1..][consumed + 1..] == input[next + 1..];
        var bg, bgConsumed := ReadColor(input[i], input[next + 1..]);
        if bgConsumed > 0 {
          current := current.(bg := bg);
          next := next + 1 + bgConsumed;
        }
      }
    }
  }

  method ReadCode(input: Bytes, i: nat, style: Style) returns (next: nat, current: Style)
    requires i < |input| && IsControl(input[i])
    ensures next == i + ControlLength(input[i..])
    ensures current == Applied(style, input[i..][..ControlLength(input[i..])])
  {
    var b := input[i];
    current := style;
    next := i + 1;
    if b == BOLD {
      current := current.(bold := !current.bold);
    } else if b == ITALIC {
      current := current.(italic := !current.italic);
    } else if b == UNDERLINE {
      current := current.(underline := !current.underline);
    } else if b == STRIKETHROUGH {
      current := current.(strikethrough := !current.strikethrough);
    } else if b == MONOSPACE {
      current := current.(monospace := !current.monospace);
    } else if b == REVERSE {
      current := current.(reverse := !current.reverse);
    } else if b == RESET {
      current := PLAIN;
    } else {
      next, current := ReadColors(input, i, style);
    }
  }

  method FlushRun(spans: seq<StyledSpan>, input: Bytes, start: Option<nat>, end: nat, style: Style)
      returns (out: seq<StyledSpan>)
    requires end <= |input| && (start.Some? ==> start.value <= end)
    ensures out == spans + if start.Some? && end > start.value then [StyledSpan(input[start.value..end], style)] else []
  {
    out := spans;
    if start.Some? {
      if end > start.value {
        out := out + [StyledSpan(input[start.value..end], style)];
      }
    }
  }

  /** A run of plain bytes up to i has been opened, or none. */
  predicate OpenRun(input: Bytes, start: Option<nat>, i: nat) {
    i <= |input| &&
    (start.Some? ==> start.value < i && forall k :: start.value <= k < i ==> NotControl(input[k]))
  }

  /** What is still to be emitted: the open run, then the rest. */
  function Remaining(input: Bytes, start: Option<nat>, i: nat, style: Style): seq<StyledSpan>
    requires OpenRun(input, start, i)
  {
    Spans(input[if start.Some? then start.value else i..], style)
  }

  lemma NoRun(input: Bytes, i: nat, style: Style)
    requires i <= |input|
    ensures OpenRun(input, None, i) && Remaining(input, None, i, style) == Spans(input[i..], style)
  {
  }

  lemma LongerRun(input: Bytes, start: Option<nat>, i: nat, style: Style)
    requires OpenRun(input, start, i) && i < |input| && NotControl(input[i])
    ensures var start' := if start.None? then Some(i) else start;
            && OpenRun(input, start', i + 1)
            && Remaining(input, start', i + 1, style) == Remaining(input, start, i, style)
  {
    hide Spans;
  }

  lemma CloseRun(input: Bytes, start: Option<nat>, i: nat, style: Style)
    requires OpenRun(input, start, i) && (i < |input| ==> IsControl(input[i]))
    ensures start.Some? ==> start.value < i
    ensures Remaining(input, start, i, style) ==
            (if start.Some? then [StyledSpan(input[start.value..i], style)] else []) + Spans(input[i..], style)
  {
    hide ControlLength, Applied;
    if start.Some? {
      var s := input[start.value..];
      var n := i - start.value;
      assert s[0] == input[start.value];
      SpanIs(s, 0, n, NotControl);
      assert s[..n] == input[start.value..i] && s[n..] == input[i..];
    }
  }

  method ParseStyled(input: Bytes) returns (out: seq<StyledSpan>)
    ensures out == Spans(input, PLAIN)
  {
    hide Spans, Applied, ControlLength, IsControl, OpenRun, Remaining;
    out := [];
    var current := PLAIN;
    var runStart: Option<nat> := None;
    var i := 0;
    NoRun(input, 0, PLAIN);
    assert input[0..] == input && [] + Spans(input, PLAIN) == Spans(input, PLAIN);
    while i < |input|
      invariant OpenRun(input, runStart, i) && i <= |input|
      invariant out + Remaining(input, runStart, i, current) == Spans(input, PLAIN)
      decreases |input| - i
    {
      if IsControl(input[i]) {
        CloseRun(input, runStart, i, current);
        out := FlushRun(out, input, runStart, i, current);
        SkipCode(input, i, current);
        runStart := None;
        i, current := ReadCode(input, i, current);
        NoRun(input, i, current);
      } else {
        LongerRun(input, runStart, i, current);
        if runStart.None? {
          runStart := Some(i);
        }
        i := i + 1;
      }
    }
    CloseRun(input, runStart, i, current);
    NoSpans(current);
    assert input[i..] == [];
    out := FlushRun(out, input, runStart, |input|, current);
  }

  lemma SkipCode(input: Bytes, i: nat, style: Style)
    requires i < |input| && IsControl(input[i])
    ensures var n := ControlLength(input[i..]);
            Spans(input[i..], style) == Spans(input[i + n..], Applied(style, input[i..][..n]))
  {
    hide ControlLength, Applied;
    assert input[i..][ControlLength(input[i..])..] == input[i + ControlLength(input[i..])..];
  }

  lemma NoSpans(style: Style)
    ensures Spans([], style) == []
  {
  }

  // ----- The grammar of control sequences -----

  predicate IsColorText(kind: byte, t: Bytes) {
    if kind == COLOR then 1 <= |t| <= 2 && forall k :: 0 <= k < |t| ==> IsDigit(t[k])
    else |t| == 6 && forall k :: 0 <= k < |t| ==> IsHexDigit(t[k])
  }

  ghost predicate IsColorPair(t: Bytes) {
    exists k :: 1 <= k < |t| && t[k] == COMMA && IsColorText(t[0], t[1..k]) && IsColorText(t[0], t[k + 1..])
  }

  /** A control byte alone, or a color byte with a color, or with a color, a comma and a background. */
  ghost predicate IsControlSequence(t: Bytes) {
    && t != [] && IsControl(t[0])
    && (|t| == 1 || ((t[0] == COLOR || t[0] == HEX_COLOR) && (IsColorText(t[0], t[1..]) || IsColorPair(t))))
  }

  /** A color is the longest color text at the start. */
  lemma ColorIsLongest(kind: byte, s: Bytes, m: nat)
    requires m <= |s|
    ensures IsColorText(kind, s[..m]) ==> m <= ColorAt(kind, s).1
    ensures ColorAt(kind, s).1 > 0 ==> IsColorText(kind, s[..ColorAt(kind, s).1])
  {
  }

  lemma PairSlices(s: Bytes, fg: nat, bg: nat)
    requires fg + bg + 2 <= |s|
    ensures s[..fg + bg + 2][1..fg + 1] == s[1..][..fg]
    ensures s[..fg + bg + 2][fg + 2..] == s[1..][fg + 1..][..bg]
  {
  }

  lemma ControlLengthIsASequence(s: Bytes)
    requires s != [] && IsControl(s[0])
    ensures IsControlSequence(s[..ControlLength(s)])
  {
    hide ColorAt, IsColorText;
    var t := s[..ControlLength(s)];
    if s[0] == COLOR || s[0] == HEX_COLOR {
      var rest := s[1..];
      var fg := ColorAt(s[0], rest).1;
      ColorIsLongest(s[0], rest, fg);
      if |t| == fg + 1 {
        assert t[1..] == rest[..fg];
      } else {
        var bg := ColorAt(s[0], rest[fg + 1..]).1;
        ColorIsLongest(s[0], rest[fg + 1..], bg);
        PairSlices(s, fg, bg);
        assert t[fg + 1] == COMMA && IsColorPair(t);
      }
    }
  }

  /** After a color text comes a comma only where the longest one ends. */
  lemma CommaEndsColor(kind: byte, s: Bytes, m: nat)
    requires m < |s| && IsColorText(kind, s[..m]) && s[m] == COMMA
    ensures ColorAt(kind, s).1 == m > 0
  {
    assert s[..m][0] == s[0];
    assert forall k :: 0 <= k < m ==> s[..m][k] == s[k];
  }

  /** The parser takes the longest control sequence there is. */
  lemma LongestSequence(s: Bytes, n: nat)
    requires s != [] && IsControl(s[0]) && n <= |s|
    ensures IsControlSequence(s[..ControlLength(s)])
    ensures IsControlSequence(s[..n]) ==> n <= ControlLength(s)
  {
    hide ColorAt, IsColorText, IsColorPair;
    ControlLengthIsASequence(s);
    var t := s[..n];
    if IsControlSequence(t) && n > 1 {
      if IsColorText(s[0], t[1..]) {
        assert t[1..] == s[1..][..n - 1];
        ColorIsLongest(s[0], s[1..], n - 1);
      } else {
        PairIsTaken(s, n);
      }
    }
  }

  lemma PairIsTaken(s: Bytes, n: nat)
    requires 1 < n <= |s| && (s[0] == COLOR || s[0] == HEX_COLOR) && IsColorPair(s[..n])
    ensures n <= ControlLength(s)
  {
    hide ColorAt, IsColorText;
    var t, rest := s[..n], s[1..];
    var k :| 1 <= k < |t| && t[k] == COMMA && IsColorText(t[0], t[1..k]) && IsColorText(t[0], t[k + 1..]);
    assert t[1..k] == rest[..k - 1];
    CommaEndsColor(s[0], rest, k - 1);
    assert t[k + 1..] == rest[k..][..n - k - 1];
    ColorIsLongest(s[0], rest[k..], n - k - 1);
    ColorTextIsNotEmpty(s[0], t[k + 1..]);
  }

  lemma ColorTextIsNotEmpty(kind: byte, t: Bytes)
    requires IsColorText(kind, t)
    ensures |t| > 0
  {
  }

  // ----- The style of a byte, by counting the codes before it -----

  /** Control sequences and single bytes, as they come. */
  function Tokens(s: Bytes): (ts: seq<Bytes>)
    ensures forall k :: 0 <= k < |ts| ==> ts[k] != []
    decreases |s|
  {
    if s == [] then []
    else
      var n := if IsControl(s[0]) then ControlLength(s) else 1;
      [s[..n]] + Tokens(s[n..])
  }

  function Flattened(tokens: seq<Bytes>): Bytes {
    if tokens == [] then [] else tokens[0] + Flattened(tokens[1..])
  }

  /** Nothing is lost or moved, and every control byte starts the longest sequence there is. */
  lemma {:induction false} TokensAreTheText(s: Bytes)
    ensures Flattened(Tokens(s)) == s
    ensures forall k :: 0 <= k < |Tokens(s)| ==>
              if IsControl(Tokens(s)[k][0]) then IsControlSequence(Tokens(s)[k]) else |Tokens(s)[k]| == 1
    decreases |s|
  {
    hide ControlLength, IsControl, IsControlSequence;
    if s != [] {
      var n := if IsControl(s[0]) then ControlLength(s) else 1;
      TokensAreTheText(s[n..]);
      assert s[..n][0] == s[0] && s[..n] + s[n..] == s;
      if IsControl(s[0]) {
        ControlLengthIsASequence(s);
      }
    }
  }

  /** The tokens behind the last reset. */
  function SinceReset(tokens: seq<Bytes>): seq<Bytes>
    requires forall k :: 0 <= k < |tokens| ==> tokens[k] != []
  {
    if tokens == [] || tokens[|tokens| - 1][0] == RESET then []
    else SinceReset(tokens[..|tokens| - 1]) + [tokens[|tokens| - 1]]
  }

  lemma {:induction false} SinceResetIsSome(tokens: seq<Bytes>)
    requires forall k :: 0 <= k < |tokens| ==> tokens[k] != []
    ensures forall k :: 0 <= k < |SinceReset(tokens)| ==> SinceReset(tokens)[k] != []
  {
    if tokens != [] {
      SinceResetIsSome(tokens[..|tokens| - 1]);
    }
  }

  /** An odd number of them start with a byte. */
  predicate Toggled(code: byte, tokens: seq<Bytes>)
    requires forall k :: 0 <= k < |tokens| ==> tokens[k] != []
  {
    tokens != [] && Toggled(code, tokens[..|tokens| - 1]) != (tokens[|tokens| - 1][0] == code)
  }

  const HEX_LOWER: Bytes := [48, 49, 50, 51, 52, 53, 54, 55, 56, 57, 97, 98, 99, 100, 101, 102]  // 0123456789abcdef
  const HEX_UPPER: Bytes := [48, 49, 50, 51, 52, 53, 54, 55, 56, 57, 65, 66, 67, 68, 69, 70]     // 0123456789ABCDEF

  /** Two hex digits that write a number, in either case. */
  predicate WritesHex(t: Bytes, n: byte) {
    && |t| == 2
    && (t[0] == HEX_LOWER[n / 16] || t[0] == HEX_UPPER[n / 16])
    && (t[1] == HEX_LOWER[n % 16] || t[1] == HEX_UPPER[n % 16])
  }

  /** The color a color text stands for: a palette number, 98 at most, or red, green and blue. */
  predicate StandsFor(kind: byte, t: Bytes, color: Color)
    requires IsColorText(kind, t)
  {
    if kind == COLOR then
      color == Palette(if Value(t) <= 98 then Value(t) as byte else 98)
    else
      color.Rgb? && WritesHex(t[0..2], color.red) && WritesHex(t[2..4], color.green) && WritesHex(t[4..6], color.blue)
  }

  predicate IsColorCode(token: Bytes) {
    token != [] && (token[0] == COLOR || token[0] == HEX_COLOR)
  }

  /** The text of the foreground, between the color byte and the comma or the end. */
  function FgText(token: Bytes): Bytes
    requires token != []
  {
    token[1..][..IndexOf(token[1..], COMMA)]
  }

  /** The text of the background, behind the comma, if there is one. */
  function BgText(token: Bytes): Option<Bytes>
    requires token != []
  {
    var comma := IndexOf(token[1..], COMMA);
    if comma < |token| - 1 then Some(token[1..][comma + 1..]) else None
  }

  predicate IsColor(kind: byte, t: Bytes, color: Option<Color>) {
    color.Some? && IsColorText(kind, t) && StandsFor(kind, t, color.value)
  }

  /** A foreground is that of the last color code; a bare one sets none. */
  predicate ShowsFg(tokens: seq<Bytes>, fg: Option<Color>) {
    if tokens == [] then fg == None
    else
      var last := tokens[|tokens| - 1];
      if !IsColorCode(last) then ShowsFg(tokens[..|tokens| - 1], fg)
      else if |last| == 1 then fg == None
      else IsColor(last[0], FgText(last), fg)
  }

  /** A background is that of the last color code that has one; a bare code sets none. */
  predicate ShowsBg(tokens: seq<Bytes>, bg: Option<Color>) {
    if tokens == [] then bg == None
    else
      var last := tokens[|tokens| - 1];
      if !IsColorCode(last) then ShowsBg(tokens[..|tokens| - 1], bg)
      else if |last| == 1 then bg == None
      else if BgText(last).None? then ShowsBg(tokens[..|tokens| - 1], bg)
      else IsColor(last[0], BgText(last).value, bg)
  }

  /** The style behind some tokens, from the codes since the last reset alone. */
  predicate StyleBehind(tokens: seq<Bytes>, style: Style)
    requires forall k :: 0 <= k < |tokens| ==> tokens[k] != []
  {
    SinceResetIsSome(tokens);
    var codes := SinceReset(tokens);
    && style.bold == Toggled(BOLD, codes) && style.italic == Toggled(ITALIC, codes)
    && style.underline == Toggled(UNDERLINE, codes) && style.strikethrough == Toggled(STRIKETHROUGH, codes)
    && style.monospace == Toggled(MONOSPACE, codes) && style.reverse == Toggled(REVERSE, codes)
    && ShowsFg(codes, style.fg) && ShowsBg(codes, style.bg)
  }

  /** Each plain byte among some tokens, in order, with the style behind the tokens before it. */
  predicate ShownAs(before: seq<Bytes>, tokens: seq<Bytes>, shown: seq<(byte, Style)>)
    requires forall k :: 0 <= k < |before| ==> before[k] != []
    requires forall k :: 0 <= k < |tokens| ==> tokens[k] != []
    decreases |tokens|
  {
    if tokens == [] then shown == []
    else if IsControl(tokens[0][0]) then ShownAs(before + [tokens[0]], tokens[1..], shown)
    else
      && shown != [] && shown[0].0 == tokens[0][0] && StyleBehind(before, shown[0].1)
      && ShownAs(before + [tokens[0]], tokens[1..], shown[1..])
  }

  lemma HexDigitsWrite(hi: byte, lo: byte)
    requires IsHexDigit(hi) && IsHexDigit(lo)
    ensures WritesHex([hi, lo], HexPair(hi, lo))
  {
    assert HexPair(hi, lo) / 16 == HexDigit(hi) && HexPair(hi, lo) % 16 == HexDigit(lo);
    OneHexDigit(hi);
    OneHexDigit(lo);
  }

  lemma OneHexDigit(b: byte)
    requires IsHexDigit(b)
    ensures b == HEX_LOWER[HexDigit(b)] || b == HEX_UPPER[HexDigit(b)]
  {
  }

  lemma PaletteText(t: Bytes)
    requires IsColorText(COLOR, t)
    ensures Value(t) <= 99 && StandsFor(COLOR, t, PaletteColor(t).0.value) && PaletteColor(t).1 == |t|
  {
    assert t[..|t| - 1] == if |t| == 1 then [] else [t[0]];
    assert |t| == 2 ==> Value([t[0]]) == DigitValue(t[0]) by {
      assert [t[0]][..0] == [];
    }
  }

  /** A color text, alone or before a comma, is read whole, as the color it stands for. */
  lemma ColorTextIsRead(kind: byte, u: Bytes, m: nat)
    requires kind == COLOR || kind == HEX_COLOR
    requires m <= |u| && IsColorText(kind, u[..m]) && (m < |u| ==> u[m] == COMMA)
    ensures ColorAt(kind, u).1 == m && IsColor(kind, u[..m], ColorAt(kind, u).0)
  {
    var t := u[..m];
    assert forall k :: 0 <= k < m ==> t[k] == u[k];
    if kind == COLOR {
      PaletteText(t);
      assert PaletteColor(u) == PaletteColor(t);
    } else {
      assert t[0..2] == [u[0], u[1]] && t[2..4] == [u[2], u[3]] && t[4..6] == [u[4], u[5]];
      HexDigitsWrite(u[0], u[1]);
      HexDigitsWrite(u[2], u[3]);
      HexDigitsWrite(u[4], u[5]);
    }
  }

  lemma NoCommaInColor(kind: byte, t: Bytes)
    requires IsColorText(kind, t)
    ensures COMMA !in t && IndexOf(t, COMMA) == |t|
  {
    NoMark(t, COMMA);
  }

  /** What a color code does, in terms of its texts. */
  lemma ColorCodeApplies(style: Style, t: Bytes)
    requires IsColorCode(t) && IsControlSequence(t)
    ensures var now := Applied(style, t);
            && now == style.(fg := now.fg, bg := now.bg)
            && (if |t| == 1 then now.fg == None && now.bg == None
                else IsColor(t[0], FgText(t), now.fg)
                     && if BgText(t).None? then now.bg == style.bg else IsColor(t[0], BgText(t).value, now.bg))
  {
    hide IsColor, ColorAt, IsColorText;
    if |t| == 1 {
      NoColor(t[0]);
    } else if IsColorText(t[0], t[1..]) {
      NoCommaInColor(t[0], t[1..]);
      assert t[1..][..|t| - 1] == t[1..];
      ColorTextIsRead(t[0], t[1..], |t| - 1);
    } else {
      PairApplies(style, t);
    }
  }

  lemma NoColor(kind: byte)
    ensures ColorAt(kind, []) == (None, 0)
  {
  }

  lemma PairApplies(style: Style, t: Bytes)
    requires IsColorCode(t) && IsColorPair(t)
    ensures |t| > 1
    ensures var now := Applied(style, t);
            && now == style.(fg := now.fg, bg := now.bg) && IsColor(t[0], FgText(t), now.fg)
            && BgText(t).Some? && IsColor(t[0], BgText(t).value, now.bg)
  {
    hide IsColor, ColorAt, IsColorText, FgText, BgText;
    var k :| 1 <= k < |t| && t[k] == COMMA && IsColorText(t[0], t[1..k]) && IsColorText(t[0], t[k + 1..]);
    PairTexts(t, k);
    PairColors(t, k);
    assert t[(k - 1) + 2..] == t[k + 1..];
  }

  lemma PairTexts(t: Bytes, k: nat)
    requires 1 <= k < |t| && t[k] == COMMA && IsColorText(t[0], t[1..k])
    ensures FgText(t) == t[1..k] && BgText(t) == Some(t[k + 1..])
  {
    hide IsColorText;
    var u := t[1..];
    assert u[..k - 1] == t[1..k] && u[k - 1] == COMMA && u[k..] == t[k + 1..];
    NoCommaInColor(t[0], t[1..k]);
    FirstIndex(u, COMMA, k - 1);
  }

  lemma PairColors(t: Bytes, k: nat)
    requires IsColorCode(t) && 1 <= k < |t| && t[k] == COMMA
    requires IsColorText(t[0], t[1..k]) && IsColorText(t[0], t[k + 1..])
    ensures 1 <= k - 1 == ColorAt(t[0], t[1..]).1 && IsColor(t[0], t[1..k], ColorAt(t[0], t[1..]).0)
    ensures IsColor(t[0], t[k + 1..], ColorAt(t[0], t[k + 1..]).0)
  {
    hide IsColor, ColorAt, IsColorText;
    var u := t[1..];
    assert u[..k - 1] == t[1..k] && u[k - 1] == COMMA;
    ColorTextIsRead(t[0], u, k - 1);
    ColorTextIsNotEmpty(t[0], t[1..k]);
    var v := t[k + 1..];
    assert v[..|v|] == v;
    ColorTextIsRead(t[0], v, |v|);
  }

  /** One more token moves the style as the token says. */
  lemma StyleMoves(before: seq<Bytes>, t: Bytes, style: Style)
    requires (forall k :: 0 <= k < |before| ==> before[k] != []) && t != [] && StyleBehind(before, style)
    requires if IsControl(t[0]) then IsControlSequence(t) else true
    ensures StyleBehind(before + [t], if IsControl(t[0]) then Applied(style, t) else style)
  {
    hide StyleBehind, Applied, IsControlSequence;
    if IsColorCode(t) {
      ColorMovesStyle(before, t, style);
    } else {
      ToggleMovesStyle(before, t, style);
    }
  }

  lemma SinceResetMoves(before: seq<Bytes>, t: Bytes)
    requires (forall k :: 0 <= k < |before| ==> before[k] != []) && t != []
    ensures forall k :: 0 <= k < |SinceReset(before)| ==> SinceReset(before)[k] != []
    ensures SinceReset(before + [t]) == if t[0] == RESET then [] else SinceReset(before) + [t]
  {
    SinceResetIsSome(before);
    assert (before + [t])[..|before|] == before;
  }

  lemma ToggleMovesStyle(before: seq<Bytes>, t: Bytes, style: Style)
    requires (forall k :: 0 <= k < |before| ==> before[k] != []) && t != [] && StyleBehind(before, style)
    requires !IsColorCode(t)
    ensures StyleBehind(before + [t], if IsControl(t[0]) then Applied(style, t) else style)
  {
    hide ColorAt, Toggled, ShowsFg, ShowsBg, SinceReset;
    SinceResetMoves(before, t);
    if t[0] == RESET {
      NothingShown();
    } else {
      TogglesMove(SinceReset(before), t);
      ColorsMove(SinceReset(before), t);
    }
  }

  lemma ColorMovesStyle(before: seq<Bytes>, t: Bytes, style: Style)
    requires (forall k :: 0 <= k < |before| ==> before[k] != []) && StyleBehind(before, style)
    requires IsColorCode(t) && IsControlSequence(t)
    ensures StyleBehind(before + [t], Applied(style, t))
  {
    hide IsColor, Applied, FgText, BgText, IsControlSequence, Toggled, ShowsFg, ShowsBg, SinceReset;
    SinceResetMoves(before, t);
    TogglesMove(SinceReset(before), t);
    ColorCodeApplies(style, t);
    ColorsMove(SinceReset(before), t);
  }

  lemma NothingShown()
    ensures !Toggled(BOLD, []) && !Toggled(ITALIC, []) && !Toggled(UNDERLINE, []) && !Toggled(STRIKETHROUGH, [])
    ensures !Toggled(MONOSPACE, []) && !Toggled(REVERSE, []) && ShowsFg([], None) && ShowsBg([], None)
  {
  }

  lemma TogglesMove(codes: seq<Bytes>, t: Bytes)
    requires (forall k :: 0 <= k < |codes| ==> codes[k] != []) && t != []
    ensures forall code :: Toggled(code, codes + [t]) == (Toggled(code, codes) != (t[0] == code))
  {
    assert (codes + [t])[..|codes|] == codes;
  }

  lemma ColorsMove(codes: seq<Bytes>, t: Bytes)
    requires t != []
    ensures forall fg :: ShowsFg(codes + [t], fg) ==
                         if !IsColorCode(t) then ShowsFg(codes, fg)
                         else if |t| == 1 then fg == None
                         else IsColor(t[0], FgText(t), fg)
    ensures forall bg :: ShowsBg(codes + [t], bg) ==
                         if !IsColorCode(t) || (|t| > 1 && BgText(t).None?) then ShowsBg(codes, bg)
                         else if |t| == 1 then bg == None
                         else IsColor(t[0], BgText(t).value, bg)
  {
    hide IsColor;
    assert (codes + [t])[..|codes|] == codes;
  }

  lemma {:induction false} StyledIsShown(before: seq<Bytes>, s: Bytes, style: Style)
    requires (forall k :: 0 <= k < |before| ==> before[k] != []) && StyleBehind(before, style)
    ensures ShownAs(before, Tokens(s), Styled(s, style))
    decreases |s|
  {
    hide ControlLength, Applied, StyleBehind, IsControlSequence;
    if s != [] {
      var n := if IsControl(s[0]) then ControlLength(s) else 1;
      var t := s[..n];
      if IsControl(s[0]) {
        ControlLengthIsASequence(s);
      }
      StyleMoves(before, t, style);
      StyledIsShown(before + [t], s[n..], if IsControl(s[0]) then Applied(style, t) else style);
      assert Tokens(s)[1..] == Tokens(s[n..]);
    }
  }

  lemma PlainBehindNothing()
    ensures StyleBehind([], PLAIN)
  {
  }

  /** Every plain byte of a text carries the style the codes before it give: each of the six toggles on after an odd
      number of its codes since the last reset, the colors those of the last color codes since then. */
  lemma StylesAreCounted(s: Bytes)
    ensures ShownAs([], Tokens(s), Flat(Spans(s, PLAIN)))
  {
    hide StyleBehind, Styled;
    PlainBehindNothing();
    StyledIsShown([], s, PLAIN);
    SpansAreStyled(s, PLAIN);
  }

  // ----- Spans and stripping -----

  /** Every byte of a text with the same style. */
  function Run(text: Bytes, style: Style): seq<(byte, Style)> {
    seq(|text|, i requires 0 <= i < |text| => (text[i], style))
  }

  function Flat(spans: seq<StyledSpan>): seq<(byte, Style)> {
    if spans == [] then []
    else Run(spans[0].text, spans[0].style) + Flat(spans[1..])
  }

  lemma {:induction false} StyledRun(s: Bytes, n: nat, style: Style)
    requires n <= |s| && forall k :: 0 <= k < n ==> NotControl(s[k])
    ensures Styled(s, style) == Run(s[..n], style) + Styled(s[n..], style)
    decreases n
  {
    hide Styled, Run;
    RunSplits(s, n, style);
    if n == 0 {
      assert s[0..] == s;
      assert [] + Styled(s, style) == Styled(s, style);
    } else {
      StyledHead(s, style);
      StyledRun(s[1..], n - 1, style);
      assert s[1..][n - 1..] == s[n..];
      var head, run, rest := [(s[0], style)], Run(s[1..][..n - 1], style), Styled(s[n..], style);
      assert (head + run) + rest == head + (run + rest);
    }
  }

  lemma RunSplits(s: Bytes, n: nat, style: Style)
    requires n <= |s|
    ensures Run(s[..n], style) == if n == 0 then [] else [(s[0], style)] + Run(s[1..][..n - 1], style)
  {
  }

  lemma StyledHead(s: Bytes, style: Style)
    requires s != [] && NotControl(s[0])
    ensures Styled(s, style) == [(s[0], style)] + Styled(s[1..], style)
  {
  }

  /** The spans are not empty, and byte for byte they are the input without its control sequences, each byte with the
      style the sequences before it give. */
  lemma {:induction false} SpansAreStyled(s: Bytes, style: Style)
    ensures Flat(Spans(s, style)) == Styled(s, style)
    ensures forall k :: 0 <= k < |Spans(s, style)| ==> Spans(s, style)[k].text != []
    decreases |s|
  {
    hide ControlLength, Applied;
    if s != [] {
      if IsControl(s[0]) {
        SpansAreStyled(s[ControlLength(s)..], Applied(style, s[..ControlLength(s)]));
      } else {
        var e := Span(s, 0, NotControl);
        SpansAreStyled(s[e..], style);
        StyledRun(s, e, style);
        assert Spans(s, style)[1..] == Spans(s[e..], style);
      }
    }
  }

  function Texts(spans: seq<StyledSpan>): Bytes {
    if spans == [] then [] else spans[0].text + Texts(spans[1..])
  }

  function Strip(s: Bytes): Bytes {
    Texts(Spans(s, PLAIN))
  }

  /** Bytes taken from a text in order, some left out. */
  predicate IsSubsequence(a: Bytes, b: Bytes) {
    if a == [] then true
    else if b == [] then false
    else if a[0] == b[0] then IsSubsequence(a[1..], b[1..])
    else IsSubsequence(a, b[1..])
  }

  lemma {:induction false} SkipInFront(a: Bytes, x: Bytes, b: Bytes)
    requires IsSubsequence(a, b)
    ensures IsSubsequence(a, x + b)
    decreases |x| + |b|, 0
  {
    if x == [] {
      assert x + b == b;
    } else {
      SkipInFront(a, x[1..], b);
      assert (x + b)[1..] == x[1..] + b;
      if a != [] && a[0] == x[0] {
        TailIsSubsequence(a, x[1..] + b);
      }
    }
  }

  lemma {:induction false} TailIsSubsequence(a: Bytes, b: Bytes)
    requires a != [] && IsSubsequence(a, b)
    ensures IsSubsequence(a[1..], b)
    decreases |b|, 1
  {
    if a[0] == b[0] {
      SkipInFront(a[1..], [b[0]], b[1..]);
      assert [b[0]] + b[1..] == b;
    } else {
      TailIsSubsequence(a, b[1..]);
      SkipInFront(a[1..], [b[0]], b[1..]);
      assert [b[0]] + b[1..] == b;
    }
  }

  lemma {:induction false} SameInFront(x: Bytes, a: Bytes, b: Bytes)
    requires IsSubsequence(a, b)
    ensures IsSubsequence(x + a, x + b)
    decreases |x|
  {
    if x == [] {
      assert x + a == a && x + b == b;
    } else {
      SameInFront(x[1..], a, b);
      assert (x + a)[1..] == x[1..] + a && (x + b)[1..] == x[1..] + b;
    }
  }

  lemma {:induction false} TextsFollowInput(s: Bytes, style: Style)
    ensures IsSubsequence(Texts(Spans(s, style)), s)
    ensures forall k :: 0 <= k < |Texts(Spans(s, style))| ==> !IsControl(Texts(Spans(s, style))[k])
    decreases |s|
  {
    hide ControlLength, Applied, IsSubsequence, IsControl;
    if s == [] {
      NothingIsSubsequence();
    } else if IsControl(s[0]) {
      var n := ControlLength(s);
      TextsFollowInput(s[n..], Applied(style, s[..n]));
      SkipInFront(Texts(Spans(s, style)), s[..n], s[n..]);
      assert s[..n] + s[n..] == s;
    } else {
      var e := Span(s, 0, NotControl);
      TextsFollowInput(s[e..], style);
      SameInFront(s[..e], Texts(Spans(s[e..], style)), s[e..]);
      assert s[..e] + s[e..] == s && Spans(s, style)[1..] == Spans(s[e..], style);
    }
  }

  lemma NothingIsSubsequence()
    ensures IsSubsequence([], [])
  {
  }

  /** Without control bytes there is nothing to strip. */
  lemma PlainTextStays(s: Bytes)
    requires forall k :: 0 <= k < |s| ==> !IsControl(s[k])
    ensures Strip(s) == s
  {
    hide ControlLength, Applied;
    if s != [] {
      SpanIs(s, 0, |s|, NotControl);
      assert s[..|s|] == s && s[|s|..] == [];
      assert Spans(s, PLAIN) == [StyledSpan(s, PLAIN)] + Spans([], PLAIN);
      assert Texts([StyledSpan(s, PLAIN)]) == s + Texts([]);
    }
  }

  /** Stripping leaves no control byte, only leaves bytes out, and does nothing the second time. */
  lemma StripIsClean(s: Bytes)
    ensures forall k :: 0 <= k < |Strip(s)| ==> !IsControl(Strip(s)[k])
    ensures IsSubsequence(Strip(s), s)
    ensures Strip(Strip(s)) == Strip(s)
  {
    hide Spans, IsControl, IsSubsequence, Texts;
    TextsFollowInput(s, PLAIN);
    PlainTextStays(Strip(s));
  }

  /** What stripping leaves are the bytes of the byte-by-byte meaning, in order. */
  lemma {:induction false} StripKeepsTheText(s: Bytes, style: Style)
    ensures |Texts(Spans(s, style))| == |Styled(s, style)|
    ensures forall k :: 0 <= k < |Styled(s, style)| ==> Texts(Spans(s, style))[k] == Styled(s, style)[k].0
  {
    hide Spans, Styled;
    SpansAreStyled(s, style);
    FlatTexts(Spans(s, style));
  }

  lemma {:induction false} FlatTexts(spans: seq<StyledSpan>)
    ensures |Texts(spans)| == |Flat(spans)|
    ensures forall k :: 0 <= k < |Flat(spans)| ==> Texts(spans)[k] == Flat(spans)[k].0
  {
    if spans != [] {
      FlatTexts(spans[1..]);
    }
  }
}
