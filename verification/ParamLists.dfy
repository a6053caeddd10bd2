/** The params of a message: middle and trailing forms, and when the printed form is the parsed one. */
module ParamLists {
  import opened Wrappers
  import opened Octets
  import opened ByteClasses

  const MAX_PARAMS: nat := 15

  datatype Params = Params(values: seq<Bytes>, trailing: bool)

  /** The last value is printed after a colon. */
  predicate NeedsColon(last: Bytes, trailing: bool) {
    trailing || last == [] || last[0] == COLON || SPACE in last
  }

  function ParamsText(values: seq<Bytes>, trailing: bool): Bytes {
    if values == [] then []
    else if |values| == 1 then
      [SPACE] + ((if NeedsColon(values[0], trailing) then [COLON] else []) + values[0])
    else [SPACE] + (values[0] + ParamsText(values[1..], trailing))
  }

  /** The text of params i and on: one param, then the others. */
  lemma ParamsTextStep(values: seq<Bytes>, trailing: bool, i: nat)
    requires i < |values|
    ensures ParamsText(values[i..], trailing)
         == [SPACE] + ((if i == |values| - 1 && NeedsColon(values[i], trailing) then [COLON] else [])
                       + (values[i] + ParamsText(values[i + 1..], trailing)))
  {
    hide NeedsColon;
    assert values[i..][1..] == values[i + 1..] && values[i..][0] == values[i];
    if i == |values| - 1 {
      assert values[i] + [] == values[i];
    } else {
      assert [] + (values[i] + ParamsText(values[i + 1..], trailing)) == values[i] + ParamsText(values[i + 1..], trailing);
    }
  }

  method WriteParams(params: Params, out: BytesMut)
    modifies out
    ensures out.data == old(out.data) + ParamsText(params.values, params.trailing)
  {
    hide ParamsText;
    var lastIdx := if |params.values| == 0 then 0 else |params.values| - 1;
    var i := 0;
    assert params.values[0..] == params.values;
    while i < |params.values|
      invariant i <= |params.values|
      invariant out.data + ParamsText(params.values[i..], params.trailing)
             == old(out.data) + ParamsText(params.values, params.trailing)
    {
      ghost var before := out.data;
      ghost var rest := ParamsText(params.values[i + 1..], params.trailing);
      var v := params.values[i];
      ParamsTextStep(params.values, params.trailing, i);
      out.PutU8(SPACE);
      var needsTrailing := i == lastIdx && (params.trailing || v == [] || v[0] == COLON || SPACE in v);
      if needsTrailing {
        out.PutU8(COLON);
      }
      out.ExtendFromSlice(v);
      assert out.data + rest == before + ([SPACE] + ((if needsTrailing then [COLON] else []) + (v + rest)));
      i := i + 1;
    }
    NoText(params.trailing);
    assert params.values[i..] == [] && out.data + [] == out.data;
  }

  lemma NoText(trailing: bool)
    ensures ParamsText([], trailing) == []
  {
  }

  /** What remains to be read, with one value put in front. */
  function WithValue(v: Bytes, rest: Result<(Params, nat), ParseError>): Result<(Params, nat), ParseError> {
    if rest.Err? then rest
    else Ok((Params([v] + rest.value.0.values, rest.value.0.trailing), rest.value.1))
  }

  predicate NotForbidden(b: byte) {
    !IsForbidden(b)
  }

  /** The rest of the line as the trailing value. */
  function TrailingAt(data: Bytes, start: nat): Result<(Params, nat), ParseError>
    requires start <= |data|
  {
    var e := Span(data, start, NotForbidden);
    if e < |data| then Err(Forbidden(e)) else Ok((Params([data[start..]], true), |data|))
  }

  /** The params from pos on, after n of them have been read. */
  function ParamsAt(data: Bytes, pos: nat, n: nat): (r: Result<(Params, nat), ParseError>)
    requires pos <= |data|
    decreases |data| - pos
  {
    if pos == |data| then Ok((Params([], false), pos))
    else if data[pos] != SPACE then Err(MissingSpace(pos))
    else if pos + 1 == |data| then Err(UnexpectedEnd)
    else if n > MAX_PARAMS then Err(TooManyParams(pos + 1))
    else if data[pos + 1] == COLON then TrailingAt(data, pos + 2)
    else if n == 14 then TrailingAt(data, pos + 1)
    else if !IsMiddleFirst(data[pos + 1]) then Err(Forbidden(pos + 1))
    else
      var e := Span(data, pos + 1, IsMiddleRest);
      if e < |data| && IsForbidden(data[e]) then Err(Forbidden(e))
      else WithValue(data[pos + 1..e], ParamsAt(data, e, n + 1))
  }

  method ReadTrailing(data: Bytes, start: nat) returns (r: Result<(Bytes, nat), ParseError>)
    requires start <= |data|
    ensures TrailingAt(data, start) == if r.Err? then Err(r.error) else Ok((Params([r.value.0], true), r.value.1))
    ensures r.Ok? ==> r.value.1 == |data|
  {
    var pos := start;
    while pos < |data|
      invariant start <= pos <= |data|
      invariant Span(data, start, NotForbidden) == Span(data, pos, NotForbidden)
    {
      if IsForbidden(data[pos]) {
        return Err(Forbidden(pos));
      }
      pos := pos + 1;
    }
    assert data[start..pos] == data[start..];
    return Ok((data[start..pos], pos));
  }

  /** What remains to be read, with the values already read put in front. */
  function WithValues(read: seq<Bytes>, rest: Result<(Params, nat), ParseError>): Result<(Params, nat), ParseError> {
    if rest.Err? then rest
    else Ok((Params(read + rest.value.0.values, rest.value.0.trailing), rest.value.1))
  }

  lemma WithValuesOne(read: seq<Bytes>, v: Bytes, rest: Result<(Params, nat), ParseError>)
    ensures WithValues(read, WithValue(v, rest)) == WithValues(read + [v], rest)
    ensures WithValues([], rest) == rest
  {
    if rest.Ok? {
      assert read + ([v] + rest.value.0.values) == (read + [v]) + rest.value.0.values;
      assert [] + rest.value.0.values == rest.value.0.values;
    }
  }

  method ReadMiddle(data: Bytes, start: nat) returns (r: Result<nat, ParseError>)
    requires start < |data|
    ensures var e := Span(data, start, IsMiddleRest);
            r == if !IsMiddleFirst(data[start]) then Err(Forbidden(start))
                 else if e < |data| && IsForbidden(data[e]) then Err(Forbidden(e))
                 else Ok(e)
  {
    if !IsMiddleFirst(data[start]) {
      return Err(Forbidden(start));
    }
    var i := start;
    while i < |data| && IsMiddleRest(data[i])
      invariant start <= i <= |data|
      invariant Span(data, start, IsMiddleRest) == Span(data, i, IsMiddleRest)
    {
      i := i + 1;
    }
    if i < |data| && IsForbidden(data[i]) {
      return Err(Forbidden(i));
    }
    return Ok(i);
  }

  method ParseParams(data: Bytes, start: nat) returns (r: Result<(Params, nat), ParseError>)
    requires start <= |data|
    ensures r == ParamsAt(data, start, 0)
  {
    hide TrailingAt;
    var values: seq<Bytes> := [];
    var pos := start;
    WithValuesOne([], [], ParamsAt(data, start, 0));
    while true
      invariant start <= pos <= |data|
      invariant ParamsAt(data, start, 0) == WithValues(values, ParamsAt(data, pos, |values|))
      decreases |data| - pos
    {
      if pos >= |data| {
        assert values + [] == values;
        return Ok((Params(values, false), pos));
      }
      if data[pos] != SPACE {
        return Err(MissingSpace(pos));
      }
      if pos + 1 >= |data| {
        return Err(UnexpectedEnd);
      }
      if |values| > MAX_PARAMS {
        return Err(TooManyParams(pos + 1));
      }
      var first := data[pos + 1];
      if first == COLON || |values| == 14 {
        var t := ReadTrailing(data, if first == COLON then pos + 2 else pos + 1);
        if t.Err? {
          return Err(t.error);
        }
        return Ok((Params(values + [t.value.0], true), t.value.1));
      }
      var m := ReadMiddle(data, pos + 1);
      if m.Err? {
        return Err(m.error);
      }
      var e := m.value;
      WithValuesOne(values, data[pos + 1..e], ParamsAt(data, e, |values| + 1));
      values := values + [data[pos + 1..e]];
      pos := e;
    }
  }

  predicate IsMiddle(v: Bytes) {
    v != [] && IsMiddleFirst(v[0]) && forall k :: 0 <= k < |v| ==> IsMiddleRest(v[k])
  }

  /** After n params, the values can all be told apart once printed. */
  predicate Printable(values: seq<Bytes>, n: nat) {
    && |values| + n <= MAX_PARAMS
    && (forall k :: 0 <= k < |values| - 1 ==> IsMiddle(values[k]))
    && (values != [] ==> Clean(values[|values| - 1]))
  }

  /** The trailing flag the parser gives back for printed values. */
  predicate ReadAsTrailing(values: seq<Bytes>, trailing: bool, n: nat) {
    values != [] && (NeedsColon(values[|values| - 1], trailing) || |values| + n == MAX_PARAMS)
  }

  /** At most 15 values, all middle but perhaps the last, and the flag says how the last one is read. */
  predicate WellFormedParams(p: Params, n: nat) {
    Printable(p.values, n) && p.trailing == ReadAsTrailing(p.values, p.trailing, n)
  }

  lemma CleanRest(data: Bytes, i: nat, v: Bytes)
    requires At(data, i, v) && i + |v| == |data| && Clean(v)
    ensures TrailingAt(data, i) == Ok((Params([v], true), |data|))
  {
    assert data[i..] == v;
    assert forall k :: i <= k < |data| ==> data[k] == v[k - i];
    SpanIs(data, i, |data|, NotForbidden);
  }

  lemma MiddleReads(data: Bytes, i: nat, v: Bytes)
    requires At(data, i, v) && IsMiddle(v)
    requires i + |v| < |data| ==> data[i + |v|] == SPACE
    ensures Span(data, i, IsMiddleRest) == i + |v| && data[i..i + |v|] == v && data[i] == v[0]
  {
    assert data[i..i + |v|] == v;
    assert forall k :: i <= k < i + |v| ==> data[k] == v[k - i];
    SpanIs(data, i, i + |v|, IsMiddleRest);
  }

  lemma MiddleParamParses(data: Bytes, pos: nat, v: Bytes, n: nat)
    requires n < 14 && IsMiddle(v) && pos < |data| && data[pos] == SPACE && At(data, pos + 1, v)
    requires pos + 1 + |v| < |data| ==> data[pos + 1 + |v|] == SPACE
    ensures ParamsAt(data, pos, n) == WithValue(v, ParamsAt(data, pos + 1 + |v|, n + 1))
  {
    MiddleReads(data, pos + 1, v);
  }

  lemma NoParamsParse(data: Bytes, trailing: bool, n: nat)
    ensures ParamsAt(data, |data|, n) == Ok((Params([], ReadAsTrailing([], trailing, n)), |data|))
  {
  }

  lemma PrintedLastParamParses(data: Bytes, pos: nat, v: Bytes, trailing: bool, n: nat)
    requires n <= 14 && Printable([v], n)
    requires At(data, pos, ParamsText([v], trailing)) && pos + |ParamsText([v], trailing)| == |data|
    ensures ParamsAt(data, pos, n) == Ok((Params([v], ReadAsTrailing([v], trailing, n)), |data|))
  {
    var mark: Bytes := if NeedsColon(v, trailing) then [COLON] else [];
    AtSplit(data, pos, [SPACE], mark + v);
    AtOne(data, pos, SPACE);
    AtSplit(data, pos + 1, mark, v);
    AtOne(data, pos + 1, COLON);
    if NeedsColon(v, trailing) {
      CleanRest(data, pos + 2, v);
    } else if n == 14 {
      CleanRest(data, pos + 1, v);
      assert data[pos + 1..][0] == v[0];
    } else {
      assert IsMiddle(v) by {
        assert forall k :: 0 <= k < |v| ==> v[k] != SPACE by {
          assert SPACE !in v;
        }
      }
      MiddleParamParses(data, pos, v, n);
      assert ParamsAt(data, |data|, n + 1) == Ok((Params([], false), |data|));
      assert [v] + [] == [v];
    }
  }

  lemma TailIsPrintable(values: seq<Bytes>, trailing: bool, n: nat)
    requires |values| > 1 && Printable(values, n)
    ensures IsMiddle(values[0]) && Printable(values[1..], n + 1) && n < 14
    ensures ReadAsTrailing(values[1..], trailing, n + 1) == ReadAsTrailing(values, trailing, n)
  {
  }

  lemma ConsIsWellFormed(v: Bytes, rest: Params, n: nat)
    requires n < 14 && IsMiddle(v) && WellFormedParams(rest, n + 1)
    ensures WellFormedParams(Params([v] + rest.values, rest.trailing), n)
  {
    var values := [v] + rest.values;
    if rest.values == [] {
      MiddleIsPlain(v);
    } else {
      assert values[|values| - 1] == rest.values[|rest.values| - 1];
    }
  }

  lemma {:induction false} PrintedParamsParse(data: Bytes, pos: nat, values: seq<Bytes>, trailing: bool, n: nat)
    requires n <= 14 && Printable(values, n)
    requires At(data, pos, ParamsText(values, trailing)) && pos + |ParamsText(values, trailing)| == |data|
    ensures ParamsAt(data, pos, n) == Ok((Params(values, ReadAsTrailing(values, trailing, n)), |data|))
    decreases |values|
  {
    hide At, IsMiddle, NeedsColon, Printable, ReadAsTrailing, ParamsAt;
    if values == [] {
      NoParamsParse(data, trailing, n);
    } else if |values| == 1 {
      assert values == [values[0]];
      PrintedLastParamParses(data, pos, values[0], trailing, n);
    } else if |values| > 1 {
      var v, rest := values[0], values[1..];
      var e := pos + 1 + |v|;
      AtSplit(data, pos, [SPACE], v + ParamsText(rest, trailing));
      AtOne(data, pos, SPACE);
      AtSplit(data, pos + 1, v, ParamsText(rest, trailing));
      TailIsPrintable(values, trailing, n);
      StartsWithSpace(data, e, rest, trailing);
      MiddleParamParses(data, pos, v, n);
      PrintedParamsParse(data, e, rest, trailing, n + 1);
      assert values == [v] + rest;
    }
  }

  lemma StartsWithSpace(data: Bytes, i: nat, values: seq<Bytes>, trailing: bool)
    requires values != [] && At(data, i, ParamsText(values, trailing))
    ensures i < |data| && data[i] == SPACE
  {
    var text := ParamsText(values, trailing);
    assert text[0] == SPACE;
    assert data[i..i + |text|][0] == data[i];
  }

  /** A fifteenth param follows that does not start with a colon: pos is the space before param n, or the end. */
  predicate BareFifteenth(data: Bytes, pos: nat, n: nat)
    decreases |data| - pos
  {
    if pos + 1 >= |data| || data[pos + 1] == COLON then false
    else n == 14 || BareFifteenth(data, Span(data, pos + 1, NotSpace), n + 1)
  }

  /** Where it starts: the offset of its first byte. */
  function FifteenthStart(data: Bytes, pos: nat, n: nat): (k: nat)
    requires BareFifteenth(data, pos, n)
    ensures pos < k < |data|
    decreases |data| - pos
  {
    if n == 14 then pos + 1 else FifteenthStart(data, Span(data, pos + 1, NotSpace), n + 1)
  }

  /** The rest of a line, with a colon in front of a bare fifteenth param. */
  function Coloned(data: Bytes, pos: nat, n: nat): Bytes
    requires pos <= |data|
  {
    if BareFifteenth(data, pos, n) then
      data[pos..FifteenthStart(data, pos, n)] + ([COLON] + data[FifteenthStart(data, pos, n)..])
    else data[pos..]
  }

  /** What the values parsed from pos print is the text at pos, with a colon in front of a bare fifteenth param. */
  lemma {:induction false} ParsedParamsPrintColoned(data: Bytes, pos: nat, n: nat)
    requires pos <= |data| && n <= 14 && ParamsAt(data, pos, n).Ok?
    ensures var p := ParamsAt(data, pos, n).value.0;
            ParamsText(p.values, p.trailing) == Coloned(data, pos, n)
    decreases |data| - pos
  {
    hide Coloned, ParamsText, BareFifteenth, FifteenthStart;
    if pos == |data| {
      NoText(false);
      NothingColoned(data, n);
    } else if data[pos + 1] == COLON || n == 14 {
      TrailingColoned(data, pos, n);
    } else {
      var e := MiddleParamRead(data, pos, n);
      ParsedParamsPrintColoned(data, e, n + 1);
      ParsedParamsPrint(data, e, n + 1);
      hide ParamsAt, IsMiddle;
      NoValuesNoFlag(ParamsAt(data, e, n + 1).value.0, n + 1);
      ConsColoned(data, pos, n, e, ParamsAt(data, e, n + 1).value.0);
    }
  }

  lemma NothingColoned(data: Bytes, n: nat)
    ensures Coloned(data, |data|, n) == []
  {
  }

  lemma TrailingColoned(data: Bytes, pos: nat, n: nat)
    requires pos + 1 < |data| && data[pos] == SPACE && n <= 14 && (data[pos + 1] == COLON || n == 14)
    requires ParamsAt(data, pos, n).Ok?
    ensures var p := ParamsAt(data, pos, n).value.0;
            ParamsText(p.values, p.trailing) == Coloned(data, pos, n)
  {
    hide ParamsText;
    if data[pos + 1] == COLON {
      OneTrailing(data, pos, pos + 2);
      assert data[pos..] == [SPACE] + ([COLON] + data[pos + 2..]);
    } else {
      OneTrailing(data, pos, pos + 1);
      assert data[pos..pos + 1] == [SPACE];
    }
  }

  lemma ConsColoned(data: Bytes, pos: nat, n: nat, e: nat, rest: Params)
    requires pos + 1 < e <= |data| && data[pos] == SPACE && data[pos + 1] != COLON && n < 14
    requires IsMiddle(data[pos + 1..e]) && e == Span(data, pos + 1, NotSpace)
    requires rest.values == [] ==> !rest.trailing
    requires ParamsText(rest.values, rest.trailing) == Coloned(data, e, n + 1)
    ensures ParamsText([data[pos + 1..e]] + rest.values, rest.trailing) == Coloned(data, pos, n)
  {
    hide ParamsText, IsMiddle, BareFifteenth, FifteenthStart, Coloned;
    var v := data[pos + 1..e];
    ConsText(v, rest);
    SkipMiddle(data, pos, n);
    ColonedStep(data, pos, n, e);
    assert data[pos..e] == [SPACE] + v;
    Associates([SPACE], v, Coloned(data, e, n + 1));
  }

  lemma OneTrailing(data: Bytes, pos: nat, start: nat)
    requires start <= |data| && TrailingAt(data, start).Ok?
    ensures var p := TrailingAt(data, start).value.0;
            ParamsText(p.values, p.trailing) == [SPACE] + ([COLON] + data[start..])
  {
  }

  lemma ConsText(v: Bytes, rest: Params)
    requires IsMiddle(v) && (rest.values == [] ==> !rest.trailing)
    ensures ParamsText([v] + rest.values, rest.trailing) == [SPACE] + (v + ParamsText(rest.values, rest.trailing))
  {
    MiddleIsPlain(v);
    assert ([v] + rest.values)[1..] == rest.values;
    assert [] + v == v && v + [] == v;
  }

  lemma SkipMiddle(data: Bytes, pos: nat, n: nat)
    requires pos + 1 < |data| && data[pos + 1] != COLON && n < 14
    ensures BareFifteenth(data, pos, n) == BareFifteenth(data, Span(data, pos + 1, NotSpace), n + 1)
    ensures BareFifteenth(data, pos, n) ==>
              FifteenthStart(data, pos, n) == FifteenthStart(data, Span(data, pos + 1, NotSpace), n + 1)
  {
  }

  lemma ColonedStep(data: Bytes, pos: nat, n: nat, e: nat)
    requires pos <= e <= |data|
    requires BareFifteenth(data, pos, n) == BareFifteenth(data, e, n + 1)
    requires BareFifteenth(data, pos, n) ==> FifteenthStart(data, pos, n) == FifteenthStart(data, e, n + 1)
    ensures Coloned(data, pos, n) == data[pos..e] + Coloned(data, e, n + 1)
  {
    hide BareFifteenth, FifteenthStart;
    if BareFifteenth(data, pos, n) {
      var k := FifteenthStart(data, e, n + 1);
      assert e < k by { FifteenthIsLater(data, e, n + 1); }
      assert data[pos..k] == data[pos..e] + data[e..k];
    }
  }

  lemma FifteenthIsLater(data: Bytes, pos: nat, n: nat)
    requires BareFifteenth(data, pos, n)
    ensures pos < FifteenthStart(data, pos, n)
  {
  }

  lemma TrailingPrints(data: Bytes, pos: nat, start: nat, n: nat)
    requires pos + 1 < |data| && data[pos] == SPACE && n <= 14
    requires if data[pos + 1] == COLON then start == pos + 2 else start == pos + 1 && n == 14
    requires TrailingAt(data, start).Ok?
    ensures PrintsAt(data, pos, n, TrailingAt(data, start).value.0)
  {
    var v := data[start..];
    assert ParamsText([v], true) == [SPACE] + ([COLON] + v);
    AtSplit(data, pos, [SPACE], [COLON] + v);
    AtOne(data, pos, SPACE);
    AtSplit(data, pos + 1, [COLON], v);
    AtOne(data, pos + 1, COLON);
  }

  /** How the values parsed from pos print: length, flag, and whether the text is the one at pos. */
  predicate PrintsAt(data: Bytes, pos: nat, n: nat, p: Params) {
    var text := ParamsText(p.values, p.trailing);
    && WellFormedParams(p, n)
    && pos + |text| <= |data| + 1
    && (At(data, pos, text) <==> !BareFifteenth(data, pos, n))
    && (!BareFifteenth(data, pos, n) ==> pos + |text| == |data|)
  }

  lemma {:induction false} ParsedParamsPrint(data: Bytes, pos: nat, n: nat)
    requires pos <= |data| && n <= 14 && ParamsAt(data, pos, n).Ok?
    ensures ParamsAt(data, pos, n).value.1 == |data|
    ensures PrintsAt(data, pos, n, ParamsAt(data, pos, n).value.0)
    decreases |data| - pos
  {
    if pos == |data| {
      assert At(data, pos, []);
    } else if data[pos + 1] == COLON {
      TrailingPrints(data, pos, pos + 2, n);
    } else if n == 14 {
      TrailingPrints(data, pos, pos + 1, n);
    } else {
      var e := MiddleParamRead(data, pos, n);
      hide PrintsAt, ParamsAt, IsMiddle, BareFifteenth, At;
      ParsedParamsPrint(data, e, n + 1);
      ConsPrintsAt(data, pos, n, e, ParamsAt(data, e, n + 1).value.0);
    }
  }

  lemma ConsPrintsAt(data: Bytes, pos: nat, n: nat, e: nat, rest: Params)
    requires pos + 1 < e <= |data| && data[pos] == SPACE && n < 14
    requires At(data, pos + 1, data[pos + 1..e]) && IsMiddle(data[pos + 1..e])
    requires BareFifteenth(data, pos, n) == BareFifteenth(data, e, n + 1)
    requires PrintsAt(data, e, n + 1, rest)
    ensures PrintsAt(data, pos, n, Params([data[pos + 1..e]] + rest.values, rest.trailing))
  {
    hide At, NeedsColon, WellFormedParams, IsMiddle, ParamsText, BareFifteenth;
    ConsIsWellFormed(data[pos + 1..e], rest, n);
    NoValuesNoFlag(rest, n + 1);
    ConsPrints(data, pos, data[pos + 1..e], rest);
  }

  lemma MiddleParamRead(data: Bytes, pos: nat, n: nat) returns (e: nat)
    requires pos + 1 < |data| && n < 14 && ParamsAt(data, pos, n).Ok? && data[pos + 1] != COLON
    ensures pos + 1 < e <= |data| && data[pos] == SPACE
    ensures At(data, pos + 1, data[pos + 1..e]) && IsMiddle(data[pos + 1..e])
    ensures ParamsAt(data, pos, n) == WithValue(data[pos + 1..e], ParamsAt(data, e, n + 1))
    ensures BareFifteenth(data, pos, n) == BareFifteenth(data, e, n + 1) && e == Span(data, pos + 1, NotSpace)
  {
    hide ParamsText, TrailingAt;
    e := Span(data, pos + 1, IsMiddleRest);
    SpanIs(data, pos + 1, e, NotSpace);
  }

  lemma ConsPrints(data: Bytes, pos: nat, v: Bytes, rest: Params)
    requires pos < |data| && data[pos] == SPACE && At(data, pos + 1, v) && IsMiddle(v)
    requires rest.values == [] ==> !rest.trailing
    ensures var w := ParamsText([v] + rest.values, rest.trailing);
            var r := ParamsText(rest.values, rest.trailing);
            && |w| == 1 + |v| + |r| && (At(data, pos, w) <==> At(data, pos + 1 + |v|, r))
  {
    hide At;
    AtOne(data, pos, SPACE);
    MiddleIsPlain(v);
    if rest.values == [] {
      assert [v] + rest.values == [v] && [] + v == v;
      AtSplit(data, pos, [SPACE], v);
      AtSplit(data, pos + 1, v, []);
      assert v + [] == v;
    } else {
      assert ([v] + rest.values)[1..] == rest.values;
      AtSplit(data, pos, [SPACE], v + ParamsText(rest.values, rest.trailing));
      AtSplit(data, pos + 1, v, ParamsText(rest.values, rest.trailing));
    }
  }

  lemma NoValuesNoFlag(p: Params, n: nat)
    requires WellFormedParams(p, n)
    ensures p.values == [] ==> !p.trailing
  {
  }

  lemma MiddleIsPlain(v: Bytes)
    requires IsMiddle(v)
    ensures !NeedsColon(v, false) && Clean(v)
  {
  }

  lemma {:induction false} ParamsTextIsClean(values: seq<Bytes>, trailing: bool, n: nat)
    requires Printable(values, n)
    ensures Clean(ParamsText(values, trailing))
    decreases |values|
  {
    if |values| > 1 {
      TailIsPrintable(values, trailing, n);
      MiddleIsPlain(values[0]);
      ParamsTextIsClean(values[1..], trailing, n + 1);
    }
  }
}
