/** The line codec: decoding from a growing buffer, encoding with rollback, and why chunk boundaries do not matter. */
module Codec {
  import opened Wrappers
  import opened Octets
  import opened ByteClasses
  import opened Messages

  datatype CodecError = LineTooLong | BadLine(error: ParseError)

  const MAX_LINE_BYTES: nat := 8191 + 512

  /** One call of the decoder: its result and the bytes it leaves in the buffer. */
  function DecodeCall(max: nat, buf: Bytes): (r: (Result<Option<Message>, CodecError>, Bytes))
    decreases |buf|
  {
    var nl := IndexOf(buf, LF);
    if nl == |buf| then
      if |buf| > max then (Err(LineTooLong), []) else (Ok(None), buf)
    else
      var contentEnd := if nl > 0 && buf[nl - 1] == CR then nl - 1 else nl;
      var rest := buf[nl + 1..];
      if contentEnd > max then (Err(LineTooLong), rest)
      else if contentEnd == 0 then DecodeCall(max, rest)
      else
        match ParseLine(buf[..contentEnd])
        case Ok(m) => (Ok(Some(m)), rest)
        case Err(e) => (Err(BadLine(e)), rest)
  }

  method Position(s: Bytes, b: byte) returns (i: nat)
    ensures i == IndexOf(s, b)
  {
    i := 0;
    while i < |s| && s[i] != b
      invariant i <= |s|
      invariant forall k :: 0 <= k < i ==> s[k] != b
    {
      i := i + 1;
    }
  }

  class IrcCodec {
    const maxBytes: nat

    constructor ()
      ensures maxBytes == MAX_LINE_BYTES
    {
      maxBytes := MAX_LINE_BYTES;
    }

    constructor WithLimit(max: nat)
      ensures maxBytes == max
    {
      maxBytes := max;
    }

    method Decode(buf: BytesMut) returns (r: Result<Option<Message>, CodecError>)
      modifies buf
      ensures (r, buf.data) == DecodeCall(maxBytes, old(buf.data))
    {
      hide ParseLine;
      while true
        invariant DecodeCall(maxBytes, buf.data) == DecodeCall(maxBytes, old(buf.data))
        decreases |buf.data|
      {
        var nl := Position(buf.data, LF);
        if nl == |buf.data| {
          if |buf.data| > maxBytes {
            buf.Clear();
            return Err(LineTooLong);
          }
          return Ok(None);
        }
        var contentEnd := if nl > 0 && buf.data[nl - 1] == CR then nl - 1 else nl;
        if contentEnd > maxBytes {
          buf.Advance(nl + 1);
          return Err(LineTooLong);
        }
        ghost var before := buf.data;
        var line := buf.SplitTo(nl + 1);
        var content := line[..contentEnd];
        assert content == before[..contentEnd];
        if content == [] {
          continue;
        }
        var parsed := Parse(content);
        match parsed {
          case Ok(m) => return Ok(Some(m));
          case Err(e) => return Err(BadLine(e));
        }
      }
    }

    method Encode(m: Message, out: BytesMut) returns (r: Result<(), CodecError>)
      modifies out
      ensures |MessageText(m)| + 2 <= maxBytes ==> r == Ok(()) && out.data == old(out.data) + Encoded([m])
      ensures |MessageText(m)| + 2 > maxBytes ==> r == Err(LineTooLong) && out.data == old(out.data)
    {
      var start := |out.data|;
      Write(m, out);
      var bodyLen := |out.data| - start;
      if bodyLen + 2 > maxBytes {
        out.Truncate(start);
        return Err(LineTooLong);
      }
      assert [m][0] == m && [m][1..] == [];
      out.ExtendFromSlice([CR, LF]);
      return Ok(());
    }

    /** Every message in turn into one buffer; one that does not fit leaves no trace. */
    method EncodeAll(ms: seq<Message>, out: BytesMut) returns (refused: nat)
      modifies out
      ensures out.data == old(out.data) + Encoded(Fitting(maxBytes, ms))
      ensures refused == |ms| - |Fitting(maxBytes, ms)|
    {
      hide Encoded, Fitting, MessageText;
      refused := 0;
      NothingEncoded(maxBytes);
      assert ms[..0] == [] && old(out.data) + [] == old(out.data);
      for i := 0 to |ms|
        invariant out.data == old(out.data) + Encoded(Fitting(maxBytes, ms[..i]))
        invariant refused == i - |Fitting(maxBytes, ms[..i])|
      {
        FittingSnoc(maxBytes, ms[..i], ms[i]);
        EncodedSnoc(Fitting(maxBytes, ms[..i]), ms[i]);
        assert ms[..i + 1] == ms[..i] + [ms[i]];
        Associates(old(out.data), Encoded(Fitting(maxBytes, ms[..i])), Encoded([ms[i]]));
        var r := Encode(ms[i], out);
        if r.Err? {
          refused := refused + 1;
        }
      }
      assert ms[..|ms|] == ms;
    }

    /** Decodes until a call returns None. */
    method DecodeAll(buf: BytesMut) returns (events: seq<Event>)
      modifies buf
      ensures (events, buf.data) == Drain(maxBytes, old(buf.data))
    {
      hide DecodeCall, Drain;
      events := [];
      NothingBefore(Drain(maxBytes, buf.data));
      while true
        invariant Drain(maxBytes, old(buf.data)) == Before(events, Drain(maxBytes, buf.data))
        decreases |buf.data|
      {
        DecodeMakesProgress(maxBytes, buf.data);
        DrainStep(maxBytes, buf.data, events);
        var r := Decode(buf);
        match r {
          case Ok(None) => return;
          case Ok(Some(m)) => events := events + [Ok(m)];
          case Err(e) => events := events + [Err(e)];
        }
      }
    }

    /** The chunks arrive one by one and each is decoded as far as it goes. */
    method Feed(buf: BytesMut, chunks: seq<Bytes>) returns (events: seq<Event>)
      modifies buf
      ensures (events, buf.data) == Run(maxBytes, old(buf.data), chunks)
    {
      hide Drain, Run;
      events := [];
      NothingBefore(Run(maxBytes, buf.data, chunks));
      assert chunks[0..] == chunks;
      for i := 0 to |chunks|
        invariant Run(maxBytes, old(buf.data), chunks) == Before(events, Run(maxBytes, buf.data, chunks[i..]))
      {
        assert chunks[i..][0] == chunks[i] && chunks[i..][1..] == chunks[i + 1..];
        RunStep(maxBytes, buf.data, chunks[i..], events);
        buf.ExtendFromSlice(chunks[i]);
        var more := DecodeAll(buf);
        events := events + more;
      }
      assert chunks[|chunks|..] == [];
      NothingToRun(maxBytes, buf.data, events);
    }
  }

  /** The messages whose lines are within the limit. */
  function Fitting(max: nat, ms: seq<Message>): seq<Message> {
    if ms == [] then []
    else (if |MessageText(ms[0])| + 2 <= max then [ms[0]] else []) + Fitting(max, ms[1..])
  }

  lemma NothingEncoded(max: nat)
    ensures Fitting(max, []) == [] && Encoded([]) == []
  {
  }

  lemma {:induction false} FittingSnoc(max: nat, ms: seq<Message>, m: Message)
    ensures Fitting(max, ms + [m]) == if |MessageText(m)| + 2 <= max then Fitting(max, ms) + [m] else Fitting(max, ms)
  {
    hide MessageText;
    if ms == [] {
      assert [] + [m] == [m] && [m][1..] == [];
    } else {
      FittingSnoc(max, ms[1..], m);
      assert (ms + [m])[1..] == ms[1..] + [m];
    }
  }

  lemma {:induction false} EncodedSnoc(ms: seq<Message>, m: Message)
    ensures Encoded(ms + [m]) == Encoded(ms) + Encoded([m])
  {
    hide MessageText;
    if ms == [] {
      assert [] + [m] == [m];
    } else {
      EncodedSnoc(ms[1..], m);
      assert (ms + [m])[1..] == ms[1..] + [m];
    }
  }

  /** A list of messages, one CRLF-ended line each. */
  function Encoded(ms: seq<Message>): Bytes {
    if ms == [] then [] else MessageText(ms[0]) + [CR, LF] + Encoded(ms[1..])
  }

  // ----- Progress of one call -----

  /** A call shortens the buffer, or returns None and leaves a newline-free buffer within the limit. */
  lemma {:induction false} DecodeMakesProgress(max: nat, buf: Bytes)
    ensures var (r, rest) := DecodeCall(max, buf);
            && |rest| <= |buf| && rest == (if r == Err(LineTooLong) && LF !in buf then [] else buf[|buf| - |rest|..])
            && (|rest| < |buf| || (r == Ok(None) && LF !in rest && |rest| <= max))
            && (r == Ok(None) ==> LF !in rest && |rest| <= max)
    decreases |buf|
  {
    hide IndexOf, DecodeCall;
    NoMark(buf, LF);
    var nl := IndexOf(buf, LF);
    CallStep(max, buf);
    if nl < |buf| {
      var after := buf[nl + 1..];
      SuffixOfSuffix(buf, nl + 1, |DecodeCall(max, after).1|);
      DecodeMakesProgress(max, after);
    }
  }

  /** A call leaves what follows the first line, or goes on with it when the line is empty. */
  lemma CallStep(max: nat, buf: Bytes)
    ensures var (r, rest) := DecodeCall(max, buf);
            var nl := IndexOf(buf, LF);
            if nl == |buf| then
              if |buf| > max then r == Err(LineTooLong) && rest == [] else r == Ok(None) && rest == buf
            else
              (r, rest) == DecodeCall(max, buf[nl + 1..]) || (r != Ok(None) && rest == buf[nl + 1..])
  {
    hide ParseLine, IndexOf;
  }

  lemma SuffixOfSuffix(s: Bytes, i: nat, n: nat)
    requires i <= |s|
    ensures n <= |s| - i ==> s[i..][|s| - i - n..] == s[|s| - n..]
    ensures s[i..] == s[|s| - |s[i..]|..]
  {
  }

  type Event = Result<Message, CodecError>

  /** Calls repeated until one returns None: what they produced and what they left. */
  function Drain(max: nat, buf: Bytes): (seq<Event>, Bytes)
    decreases |buf|
  {
    DecodeMakesProgress(max, buf);
    var (r, rest) := DecodeCall(max, buf);
    match r
    case Ok(None) => ([], rest)
    case Ok(Some(m)) => var (events, tail) := Drain(max, rest); ([Ok(m)] + events, tail)
    case Err(e) => var (events, tail) := Drain(max, rest); ([Err(e)] + events, tail)
  }

  /** The decoder fed chunk by chunk, drained after each one. */
  function Run(max: nat, buf: Bytes, chunks: seq<Bytes>): (seq<Event>, Bytes)
    decreases |chunks|
  {
    if chunks == [] then ([], buf)
    else
      var (events, rest) := Drain(max, buf + chunks[0]);
      var (more, tail) := Run(max, rest, chunks[1..]);
      (events + more, tail)
  }

  function Before(events: seq<Event>, rest: (seq<Event>, Bytes)): (seq<Event>, Bytes) {
    (events + rest.0, rest.1)
  }

  lemma NothingBefore(rest: (seq<Event>, Bytes))
    ensures Before([], rest) == rest
  {
    assert [] + rest.0 == rest.0;
  }

  /** One call and then the rest, after some events. */
  lemma DrainStep(max: nat, buf: Bytes, events: seq<Event>)
    ensures var (r, rest) := DecodeCall(max, buf);
            Before(events, Drain(max, buf)) ==
            match r
            case Ok(None) => (events, rest)
            case Ok(Some(m)) => Before(events + [Ok(m)], Drain(max, rest))
            case Err(e) => Before(events + [Err(e)], Drain(max, rest))
  {
    hide DecodeCall;
    DecodeMakesProgress(max, buf);
    var (r, rest) := DecodeCall(max, buf);
    match r {
      case Ok(None) => assert events + [] == events;
      case Ok(Some(m)) => ConcatAssociates(events, [Ok(m)], Drain(max, rest).0);
      case Err(e) => ConcatAssociates(events, [Err(e)], Drain(max, rest).0);
    }
  }

  /** One chunk and then the rest, after some events. */
  lemma RunStep(max: nat, buf: Bytes, chunks: seq<Bytes>, events: seq<Event>)
    requires chunks != []
    ensures var (more, rest) := Drain(max, buf + chunks[0]);
            Before(events, Run(max, buf, chunks)) == Before(events + more, Run(max, rest, chunks[1..]))
  {
    hide Drain;
    var (more, rest) := Drain(max, buf + chunks[0]);
    ConcatAssociates(events, more, Run(max, rest, chunks[1..]).0);
  }

  lemma NothingToRun(max: nat, buf: Bytes, events: seq<Event>)
    ensures Before(events, Run(max, buf, [])) == (events, buf)
  {
    assert events + [] == events;
  }

  function Concat(chunks: seq<Bytes>): Bytes {
    if chunks == [] then [] else chunks[0] + Concat(chunks[1..])
  }

  // ----- The simple meaning of a byte stream -----

  function StripCr(line: Bytes): Bytes {
    if line != [] && line[|line| - 1] == CR then line[..|line| - 1] else line
  }

  function LineMeaning(line: Bytes): seq<Event> {
    if StripCr(line) == [] then []
    else
      match ParseLine(StripCr(line))
      case Ok(m) => [Ok(m)]
      case Err(e) => [Err(BadLine(e))]
  }

  /** Split at every LF, strip one CR, drop empty lines, parse each. */
  function Meaning(stream: Bytes): seq<Event>
    decreases |stream|
  {
    var nl := IndexOf(stream, LF);
    if nl == |stream| then [] else LineMeaning(stream[..nl]) + Meaning(stream[nl + 1..])
  }

  /** What follows the last LF. */
  function Tail(stream: Bytes): Bytes
    decreases |stream|
  {
    var nl := IndexOf(stream, LF);
    if nl == |stream| then stream else Tail(stream[nl + 1..])
  }

  /** Every newline-free segment is at most max bytes long. */
  predicate WithinLimit(max: nat, stream: Bytes)
    decreases |stream|
  {
    var nl := IndexOf(stream, LF);
    nl <= max && (nl < |stream| ==> WithinLimit(max, stream[nl + 1..]))
  }

  /** Draining a buffer whose first line is within the limit produces that line's meaning first. */
  lemma DrainOneLine(max: nat, buf: Bytes)
    requires var nl := IndexOf(buf, LF); nl < |buf| && nl <= max
    ensures var nl := IndexOf(buf, LF);
            var (events, tail) := Drain(max, buf[nl + 1..]);
            Drain(max, buf) == (LineMeaning(buf[..nl]) + events, tail)
  {
    hide ParseLine;
    var nl := IndexOf(buf, LF);
    var (events, tail) := Drain(max, buf[nl + 1..]);
    var contentEnd := if nl > 0 && buf[nl - 1] == CR then nl - 1 else nl;
    assert StripCr(buf[..nl]) == buf[..contentEnd];
    if contentEnd == 0 {
      assert LineMeaning(buf[..nl]) == [];
      assert [] + events == events;
    }
  }

  lemma {:induction false} DrainIsMeaning(max: nat, buf: Bytes)
    requires WithinLimit(max, buf)
    ensures Drain(max, buf) == (Meaning(buf), Tail(buf))
    decreases |buf|
  {
    hide LineMeaning, Meaning, Tail, WithinLimit, IndexOf, Drain;
    FirstLine(max, buf);
    var nl := IndexOf(buf, LF);
    if nl < |buf| {
      DrainOneLine(max, buf);
      DrainIsMeaning(max, buf[nl + 1..]);
    } else {
      NoMark(buf, LF);
      ShortIsKept(max, buf);
    }
  }

  lemma IndexInConcat(a: Bytes, b: Bytes)
    ensures var i := IndexOf(a, LF);
            IndexOf(a + b, LF) == if i < |a| then i else |a| + IndexOf(b, LF)
  {
    var i := IndexOf(a, LF);
    var j := IndexOf(b, LF);
    var n := if i < |a| then i else |a| + j;
    assert n < |a + b| ==> (a + b)[n] == LF;
    assert forall k :: 0 <= k < n ==> (a + b)[k] != LF;
  }

  lemma FirstLine(max: nat, s: Bytes)
    ensures var nl := IndexOf(s, LF);
            if nl < |s| then
              && Meaning(s) == LineMeaning(s[..nl]) + Meaning(s[nl + 1..]) && Tail(s) == Tail(s[nl + 1..])
              && (WithinLimit(max, s) <==> nl <= max && WithinLimit(max, s[nl + 1..]))
            else Meaning(s) == [] && Tail(s) == s && (WithinLimit(max, s) <==> |s| <= max)
  {
    hide LineMeaning;
  }

  lemma ConcatAssociates(a: seq<Event>, b: seq<Event>, c: seq<Event>)
    ensures (a + b) + c == a + (b + c)
    ensures [] + c == c
  {
  }

  /** The meaning of a stream may be read off in two parts, carrying over the unterminated tail. */
  lemma {:induction false} MeaningSplits(max: nat, a: Bytes, b: Bytes)
    requires WithinLimit(max, a + b)
    ensures WithinLimit(max, a) && WithinLimit(max, Tail(a) + b)
    ensures Meaning(a + b) == Meaning(a) + Meaning(Tail(a) + b)
    ensures Tail(a + b) == Tail(Tail(a) + b)
    decreases |a|
  {
    hide LineMeaning, IndexOf, Meaning, Tail, WithinLimit;
    IndexInConcat(a, b);
    FirstLine(max, a);
    FirstLine(max, a + b);
    var nl := IndexOf(a, LF);
    if nl < |a| {
      var rest := a[nl + 1..];
      assert (a + b)[nl + 1..] == rest + b && (a + b)[..nl] == a[..nl];
      MeaningSplits(max, rest, b);
      ConcatAssociates(LineMeaning(a[..nl]), Meaning(rest), Meaning(Tail(rest) + b));
    } else {
      ConcatAssociates([], [], Meaning(a + b));
    }
  }

  lemma {:induction false} RunIsMeaning(max: nat, buf: Bytes, chunks: seq<Bytes>)
    requires LF !in buf && WithinLimit(max, buf + Concat(chunks))
    ensures Run(max, buf, chunks) == (Meaning(buf + Concat(chunks)), Tail(buf + Concat(chunks)))
    decreases |chunks|
  {
    if chunks == [] {
      assert buf + [] == buf;
    } else {
      var head := buf + chunks[0];
      var rest := Concat(chunks[1..]);
      assert buf + Concat(chunks) == head + rest;
      MeaningSplits(max, head, rest);
      DrainIsMeaning(max, head);
      TailHasNoNewline(head);
      RunIsMeaning(max, Tail(head), chunks[1..]);
    }
  }

  lemma {:induction false} TailHasNoNewline(s: Bytes)
    ensures LF !in Tail(s)
    decreases |s|
  {
    var nl := IndexOf(s, LF);
    if nl < |s| {
      TailHasNoNewline(s[nl + 1..]);
    }
  }

  // ----- Chunk independence, exactly -----

  lemma LineNeverTooLong(line: Bytes)
    ensures Err(LineTooLong) !in LineMeaning(line)
  {
    hide ParseLine;
  }

  lemma {:induction false} MeaningNeverTooLong(s: Bytes)
    ensures Err(LineTooLong) !in Meaning(s)
    decreases |s|
  {
    hide LineMeaning;
    var nl := IndexOf(s, LF);
    if nl < |s| {
      LineNeverTooLong(s[..nl]);
      MeaningNeverTooLong(s[nl + 1..]);
    }
  }

  lemma OverlongBuffer(max: nat, buf: Bytes)
    requires LF !in buf && |buf| > max
    ensures Err(LineTooLong) in Drain(max, buf).0
  {
    assert DecodeCall(max, buf) == (Err(LineTooLong), []);
    assert Drain(max, buf).0[0] == Err(LineTooLong);
  }

  /** Cut a stream at the end of its first over-long segment and the decoder reports it. */
  lemma {:induction false} OverlongIsReported(max: nat, s: Bytes) returns (k: nat)
    requires !WithinLimit(max, s)
    ensures k <= |s| && Err(LineTooLong) in Drain(max, s[..k]).0
    decreases |s|
  {
    hide LineMeaning, DecodeCall, Drain, IndexOf;
    var nl := IndexOf(s, LF);
    if nl > max {
      k := nl;
      OverlongBuffer(max, s[..k]);
    } else {
      var j := OverlongIsReported(max, s[nl + 1..]);
      k := nl + 1 + j;
      var cut := s[..k];
      assert IndexOf(cut, LF) == nl by {
        assert cut + s[k..] == s;
        IndexInConcat(cut, s[k..]);
      }
      assert cut[nl + 1..] == s[nl + 1..][..j];
      DrainOneLine(max, cut);
    }
  }

  /** Cutting a stream at the end of its first over-long segment makes the decoder report what the meaning does not hold. */
  lemma OverlongCut(max: nat, stream: Bytes) returns (chunks: seq<Bytes>)
    requires !WithinLimit(max, stream)
    ensures Concat(chunks) == stream && Run(max, [], chunks).0 != Meaning(stream)
  {
    hide Drain, Meaning, WithinLimit;
    var k := OverlongIsReported(max, stream);
    chunks := [stream[..k], stream[k..]];
    TwoChunks(stream[..k], stream[k..]);
    assert stream[..k] + stream[k..] == stream;
    assert [] + stream[..k] == stream[..k];
    var (events, rest) := Drain(max, stream[..k]);
    assert Run(max, [], chunks).0 == events + Run(max, rest, chunks[1..]).0;
    assert Err(LineTooLong) in Run(max, [], chunks).0;
    MeaningNeverTooLong(stream);
  }

  // ----- After an over-long line without its end -----

  /** What one line in the buffer decodes to. */
  function DecodedLine(max: nat, line: Bytes): seq<Event> {
    if |StripCr(line)| > max then [Err(LineTooLong)] else LineMeaning(line)
  }

  /** Draining a buffer with a line in it decodes that line first, over the limit or not. */
  lemma DrainAnyLine(max: nat, buf: Bytes)
    requires IndexOf(buf, LF) < |buf|
    ensures var nl := IndexOf(buf, LF);
            Drain(max, buf) == Before(DecodedLine(max, buf[..nl]), Drain(max, buf[nl + 1..]))
  {
    var nl := IndexOf(buf, LF);
    var line := buf[..nl];
    var contentEnd := if nl > 0 && buf[nl - 1] == CR then nl - 1 else nl;
    assert StripCr(line) == buf[..contentEnd];
    if contentEnd > max {
      hide Drain;
      DrainStep(max, buf, []);
      NothingBefore(Drain(max, buf));
      ConcatAssociates([], [], [Err(LineTooLong)]);
    } else if contentEnd == nl {
      DrainOneLine(max, buf);
    } else {
      DrainCrLine(max, buf);
    }
  }

  /** A line that is within the limit once its CR is stripped. */
  lemma DrainCrLine(max: nat, buf: Bytes)
    requires var nl := IndexOf(buf, LF); 0 < nl < |buf| && buf[nl - 1] == CR && nl - 1 <= max
    ensures var nl := IndexOf(buf, LF);
            Drain(max, buf) == Before(LineMeaning(buf[..nl]), Drain(max, buf[nl + 1..]))
  {
    hide ParseLine;
    var nl := IndexOf(buf, LF);
    assert StripCr(buf[..nl]) == buf[..nl - 1];
    if nl == 1 {
      assert LineMeaning(buf[..nl]) == [];
      NothingBefore(Drain(max, buf[nl + 1..]));
    }
  }

  lemma SilentIffStripped(max: nat, line: Bytes)
    ensures DecodedLine(max, line) == [] <==> StripCr(line) == []
  {
    hide ParseLine;
  }

  /** The chunks from behind the first newline on. */
  function AfterNewline(chunks: seq<Bytes>): seq<Bytes> {
    if chunks == [] then []
    else if LF in chunks[0] then [chunks[0][IndexOf(chunks[0], LF) + 1..]] + chunks[1..]
    else AfterNewline(chunks[1..])
  }

  /** What comes in the chunks before the one with the first newline. */
  function Earlier(chunks: seq<Bytes>): Bytes {
    if chunks == [] || LF in chunks[0] then [] else chunks[0] + Earlier(chunks[1..])
  }

  function FirstLineOf(s: Bytes): Bytes {
    s[..IndexOf(s, LF)]
  }

  /** Decoding chunks decodes what is buffered with the line up to the first newline, however it is cut, and then the
      rest; the line is silent exactly when it is empty or a CR, and no piece of it was over the limit by itself. */
  lemma {:induction false} FirstLineDecodes(max: nat, buf: Bytes, chunks: seq<Bytes>) returns (events: seq<Event>)
    requires LF !in buf && |buf| <= max && LF in Concat(chunks)
    ensures Run(max, buf, chunks) == Before(events, Run(max, [], AfterNewline(chunks)))
    ensures events == [] <==> StripCr(buf + FirstLineOf(Concat(chunks))) == [] && |buf + Earlier(chunks)| <= max
    decreases |chunks|
  {
    hide Drain, StripCr, DecodedLine;
    var first, rest := chunks[0], chunks[1..];
    var head := buf + first;
    IndexInConcat(buf, first);
    IndexInConcat(first, Concat(rest));
    NoMark(buf, LF);
    NoMark(first, LF);
    if LF in first {
      var k := IndexOf(first, LF);
      events := DecodedLine(max, head[..|buf| + k]);
      assert head[|buf| + k + 1..] == first[k + 1..];
      assert head[..|buf| + k] == buf + FirstLineOf(Concat(chunks));
      DrainAnyLine(max, head);
      SilentIffStripped(max, head[..|buf| + k]);
      RunAfterLine(max, buf, chunks, events);
      assert buf + [] == buf;
    } else {
      events := FirstLineInPieces(max, buf, chunks);
    }
  }

  /** The chunk with the newline: its line, then what is behind it as a chunk of its own. */
  lemma RunAfterLine(max: nat, buf: Bytes, chunks: seq<Bytes>, events: seq<Event>)
    requires chunks != [] && LF in chunks[0]
    requires Drain(max, buf + chunks[0])
             == Before(events, Drain(max, chunks[0][IndexOf(chunks[0], LF) + 1..]))
    ensures Run(max, buf, chunks) == Before(events, Run(max, [], AfterNewline(chunks)))
  {
    hide Drain;
    var behind := chunks[0][IndexOf(chunks[0], LF) + 1..];
    var later := AfterNewline(chunks);
    assert later[0] == behind && later[1..] == chunks[1..] && [] + behind == behind;
    var (more, tail) := Drain(max, behind);
    ConcatAssociates(events, more, Run(max, tail, chunks[1..]).0);
  }

  /** A chunk without a newline: kept if what is buffered then is within the limit, else reported and dropped. */
  lemma {:induction false} FirstLineInPieces(max: nat, buf: Bytes, chunks: seq<Bytes>) returns (events: seq<Event>)
    requires LF !in buf && |buf| <= max && chunks != [] && LF !in chunks[0] && LF in Concat(chunks)
    ensures Run(max, buf, chunks) == Before(events, Run(max, [], AfterNewline(chunks)))
    ensures events == [] <==> StripCr(buf + FirstLineOf(Concat(chunks))) == [] && |buf + Earlier(chunks)| <= max
    decreases |chunks|, 0
  {
    hide Drain, StripCr, DecodedLine;
    var first, rest := chunks[0], chunks[1..];
    var head := buf + first;
    IndexInConcat(first, Concat(rest));
    NoMark(first, LF);
    assert FirstLineOf(Concat(chunks)) == first + FirstLineOf(Concat(rest));
    Associates(buf, first, FirstLineOf(Concat(rest)));
    Associates(buf, first, Earlier(rest));
    if |head| > max {
      OverlongIsDropped(max, head);
      var more := FirstLineDecodes(max, [], rest);
      events := [Err(LineTooLong)] + more;
      ConcatAssociates([Err(LineTooLong)], more, Run(max, [], AfterNewline(rest)).0);
      assert Run(max, buf, chunks) == Before([Err(LineTooLong)], Run(max, [], rest));
    } else {
      ShortIsKept(max, head);
      events := FirstLineDecodes(max, head, rest);
      NothingBefore(Run(max, head, rest));
    }
  }

  lemma ShortIsKept(max: nat, buf: Bytes)
    requires LF !in buf && |buf| <= max
    ensures Drain(max, buf) == ([], buf)
  {
    NoMark(buf, LF);
  }

  /** What is over the limit without a newline is reported and dropped, and decoding starts afresh with what follows. */
  lemma OverlongStartsAfresh(max: nat, buf: Bytes, a: Bytes, chunks: seq<Bytes>)
    requires LF !in buf + a && |buf + a| > max
    ensures Run(max, buf, [a] + chunks) == Before([Err(LineTooLong)], Run(max, [], chunks))
  {
    hide Drain;
    OverlongIsDropped(max, buf + a);
    assert ([a] + chunks)[1..] == chunks;
  }

  /** So the rest of the line is read as a line of its own, whatever follows in whatever chunks. That is the same as
      dropping it up to the next newline exactly when the rest is empty or a CR; with a limit of zero a CR must also
      come in one chunk with the newline. */
  lemma RestOfOverlongLine(max: nat, buf: Bytes, a: Bytes, chunks: seq<Bytes>)
    requires LF !in buf + a && |buf + a| > max && LF in Concat(chunks)
    ensures Run(max, buf, [a] + chunks) == Before([Err(LineTooLong)], Run(max, [], AfterNewline(chunks)))
            <==> StripCr(FirstLineOf(Concat(chunks))) == [] && |Earlier(chunks)| <= max
    ensures max >= 1 && StripCr(FirstLineOf(Concat(chunks))) == [] ==> |Earlier(chunks)| <= max
  {
    hide Drain, Run, AfterNewline, FirstLineOf, StripCr, Before;
    OverlongStartsAfresh(max, buf, a, chunks);
    var events := FirstLineDecodes(max, [], chunks);
    assert [] + FirstLineOf(Concat(chunks)) == FirstLineOf(Concat(chunks)) && [] + Earlier(chunks) == Earlier(chunks);
    AddedAfterError(events, Run(max, [], AfterNewline(chunks)));
    EarlierIsShort(chunks);
  }

  lemma {:induction false} EarlierIsShort(chunks: seq<Bytes>)
    requires LF in Concat(chunks)
    ensures |Earlier(chunks)| <= |FirstLineOf(Concat(chunks))|
    ensures StripCr(FirstLineOf(Concat(chunks))) == [] ==> |FirstLineOf(Concat(chunks))| <= 1
  {
    NoMark(chunks[0], LF);
    if LF !in chunks[0] {
      IndexInConcat(chunks[0], Concat(chunks[1..]));
      EarlierIsShort(chunks[1..]);
    }
  }

  /** In one chunk, over the limit or not. */
  lemma RestInOneChunk(max: nat, a: Bytes, b: Bytes)
    requires LF !in a && |a| > max && LF in b
    ensures var nl := IndexOf(b, LF);
            var rest := Drain(max, b[nl + 1..]);
            && Run(max, [], [a, b]) == Before([Err(LineTooLong)] + DecodedLine(max, b[..nl]), rest)
            && (Run(max, [], [a, b]) == Before([Err(LineTooLong)], rest) <==> StripCr(b[..nl]) == [])
  {
    hide Drain, Run, StripCr, DecodedLine, Before;
    var nl := IndexOf(b, LF);
    var rest := Drain(max, b[nl + 1..]);
    assert [] + a == a && [a] + [b] == [a, b];
    OverlongStartsAfresh(max, [], a, [b]);
    NoMark(b, LF);
    DrainAnyLine(max, b);
    RunOneChunk(max, b);
    SilentIffStripped(max, b[..nl]);
    AddedAfterError(DecodedLine(max, b[..nl]), rest);
  }

  /** Events between the error and the rest. */
  lemma AddedAfterError(events: seq<Event>, rest: (seq<Event>, Bytes))
    ensures Before([Err(LineTooLong)], Before(events, rest)) == Before([Err(LineTooLong)] + events, rest)
    ensures Before([Err(LineTooLong)] + events, rest) == Before([Err(LineTooLong)], rest) <==> events == []
  {
    ConcatAssociates([Err(LineTooLong)], events, rest.0);
    assert |[Err(LineTooLong)] + events + rest.0| == 1 + |events| + |rest.0|;
    assert events == [] ==> [Err(LineTooLong)] + events == [Err(LineTooLong)];
  }

  lemma RunOneChunk(max: nat, b: Bytes)
    ensures Run(max, [], [b]) == Drain(max, b)
  {
    hide Drain;
    RunStep(max, [], [b], []);
    assert [] + b == b && [b][1..] == [];
    ConcatAssociates([], [], Drain(max, b).0);
    NothingToRun(max, Drain(max, b).1, [] + Drain(max, b).0);
    NothingBefore(Run(max, [], [b]));
  }

  /** Within the limit the rest of the stream has its plain meaning, the rest of the line a first line in it. */
  lemma RestOfStreamIsMeaning(max: nat, a: Bytes, chunks: seq<Bytes>)
    requires LF !in a && |a| > max && WithinLimit(max, Concat(chunks)) && LF in Concat(chunks)
    ensures var b := Concat(chunks);
            var behind := b[IndexOf(b, LF) + 1..];
            && Run(max, [], [a] + chunks) == ([Err(LineTooLong)] + Meaning(b), Tail(b))
            && (Run(max, [], [a] + chunks) == ([Err(LineTooLong)] + Meaning(behind), Tail(behind))
                <==> StripCr(FirstLineOf(b)) == [])
  {
    hide Run, Meaning, Tail, WithinLimit, StripCr, LineMeaning, Drain;
    var b := Concat(chunks);
    assert [] + a == a && [] + b == b;
    OverlongStartsAfresh(max, [], a, chunks);
    RunIsMeaning(max, [], chunks);
    FirstLine(max, b);
    NoMark(b, LF);
    SilentLine(FirstLineOf(b), Meaning(b[IndexOf(b, LF) + 1..]));
  }

  lemma OverlongIsDropped(max: nat, a: Bytes)
    requires LF !in a && |a| > max
    ensures Drain(max, a) == ([Err(LineTooLong)], [])
  {
    hide Drain;
    DrainStep(max, a, []);
    DrainStep(max, [], [Err(LineTooLong)]);
    NothingBefore(Drain(max, a));
    assert DecodeCall(max, a) == (Err(LineTooLong), []) && DecodeCall(max, []) == (Ok(None), []);
    ConcatAssociates([], [], [Err(LineTooLong)]);
  }

  lemma SilentLine(line: Bytes, events: seq<Event>)
    ensures [Err(LineTooLong)] + (LineMeaning(line) + events) == [Err(LineTooLong)] + events <==> StripCr(line) == []
  {
    hide ParseLine;
    if StripCr(line) == [] {
      assert [] + events == events;
    } else {
      assert |LineMeaning(line)| == 1;
      assert |[Err(LineTooLong)] + (LineMeaning(line) + events)| == 2 + |events|;
    }
  }

  /** Every way of cutting a stream into chunks decodes to its meaning, if and only if no segment is over the limit. */
  lemma ChunksDoNotMatter(max: nat, stream: Bytes)
    ensures (forall chunks {:trigger Run(max, [], chunks)} ::
               Concat(chunks) == stream ==> Run(max, [], chunks) == (Meaning(stream), Tail(stream)))
       <==> WithinLimit(max, stream)
  {
    hide Run, Meaning, Tail, WithinLimit, Concat;
    if WithinLimit(max, stream) {
      forall chunks | Concat(chunks) == stream
        ensures Run(max, [], chunks) == (Meaning(stream), Tail(stream))
      {
        assert [] + Concat(chunks) == stream;
        RunIsMeaning(max, [], chunks);
      }
    } else {
      var chunks := OverlongCut(max, stream);
      assert Run(max, [], chunks) != (Meaning(stream), Tail(stream));
    }
  }

  lemma TwoChunks(a: Bytes, b: Bytes)
    ensures Concat([a, b]) == a + b
  {
    assert [a, b][1..] == [b] && [b][1..] == [];
    assert Concat([b]) == b + [];
  }

  // ----- End to end -----

  predicate Fits(max: nat, m: Message) {
    WellFormed(m) && |MessageText(m)| + 2 <= max
  }

  function Received(ms: seq<Message>): seq<Event> {
    seq(|ms|, i requires 0 <= i < |ms| => Ok(ms[i]))
  }

  /** The messages as the parser gives them back. */
  function AllAsRead(ms: seq<Message>): seq<Message> {
    seq(|ms|, i requires 0 <= i < |ms| => AsRead(ms[i]))
  }

  lemma EncodedLine(max: nat, m: Message, rest: Bytes)
    requires PrintableMessage(m) && |MessageText(m)| + 2 <= max
    ensures var s := MessageText(m) + [CR, LF] + rest;
            var nl := IndexOf(s, LF);
            nl < |s| && nl <= max && LineMeaning(s[..nl]) == [Ok(AsRead(m))] && s[nl + 1..] == rest
  {
    hide PrintableMessage, MessageText, ParseLine, AsRead;
    var text := MessageText(m);
    var s := text + [CR, LF] + rest;
    var nl := |text| + 1;
    PrintedLineIsClean(m);
    PrintedLineIsRead(m);
    assert forall k :: 0 <= k < nl ==> s[k] != LF;
    assert s[nl] == LF;
    assert IndexOf(s, LF) == nl;
    assert s[..nl] == text + [CR] && StripCr(text + [CR]) == text;
  }

  lemma {:induction false} EncodedMeansTheMessages(max: nat, ms: seq<Message>)
    requires forall i :: 0 <= i < |ms| ==> PrintableMessage(ms[i]) && |MessageText(ms[i])| + 2 <= max
    ensures WithinLimit(max, Encoded(ms)) && Meaning(Encoded(ms)) == Received(AllAsRead(ms))
    ensures Tail(Encoded(ms)) == []
    decreases |ms|
  {
    hide PrintableMessage, LineMeaning, MessageText, AsRead;
    if ms != [] {
      EncodedLine(max, ms[0], Encoded(ms[1..]));
      EncodedMeansTheMessages(max, ms[1..]);
      assert Received(AllAsRead(ms)) == [Ok(AsRead(ms[0]))] + Received(AllAsRead(ms[1..]));
    }
  }

  lemma {:induction false} FittingFits(max: nat, ms: seq<Message>)
    requires forall i :: 0 <= i < |ms| ==> PrintableMessage(ms[i])
    ensures forall i :: 0 <= i < |Fitting(max, ms)| ==>
              PrintableMessage(Fitting(max, ms)[i]) && |MessageText(Fitting(max, ms)[i])| + 2 <= max
    ensures Fitting(max, ms) == ms <==> forall i :: 0 <= i < |ms| ==> |MessageText(ms[i])| + 2 <= max
    ensures |Fitting(max, ms)| <= |ms|
  {
    hide PrintableMessage, MessageText;
    if ms != [] {
      FittingFits(max, ms[1..]);
      assert ms == [ms[0]] + ms[1..];
    }
  }

  /** Printable messages encoded into one buffer, cut into any chunks and decoded, come back, each as the parser gives
      it back, as the list of those within the limit, nothing left over. */
  lemma PrintableEndToEnd(max: nat, ms: seq<Message>, chunks: seq<Bytes>)
    requires forall i :: 0 <= i < |ms| ==> PrintableMessage(ms[i])
    requires Concat(chunks) == Encoded(Fitting(max, ms))
    ensures Run(max, [], chunks) == (Received(AllAsRead(Fitting(max, ms))), [])
  {
    hide PrintableMessage, Fitting, AllAsRead, Received;
    FittingFits(max, ms);
    EncodedMeansTheMessages(max, Fitting(max, ms));
    ChunksDoNotMatter(max, Encoded(Fitting(max, ms)));
  }

  lemma {:induction false} WellFormedAsRead(max: nat, ms: seq<Message>)
    requires forall i :: 0 <= i < |ms| ==> WellFormed(ms[i])
    ensures forall i :: 0 <= i < |ms| ==> PrintableMessage(ms[i])
    ensures AllAsRead(Fitting(max, ms)) == Fitting(max, ms)
  {
    hide WellFormed, PrintableMessage, MessageText, AsRead;
    if ms != [] {
      WellFormedIsPrintable(ms[0]);
      WellFormedAsRead(max, ms[1..]);
      assert ms == [ms[0]] + ms[1..];
    }
  }

  /** Well-formed messages encoded into one buffer, cut into any chunks and decoded, come back as the list of those
      within the limit, nothing left over; that is the whole list exactly when all of them are. */
  lemma EndToEnd(max: nat, ms: seq<Message>, chunks: seq<Bytes>)
    requires forall i :: 0 <= i < |ms| ==> WellFormed(ms[i])
    requires Concat(chunks) == Encoded(Fitting(max, ms))
    ensures Run(max, [], chunks) == (Received(Fitting(max, ms)), [])
    ensures Fitting(max, ms) == ms <==> forall i :: 0 <= i < |ms| ==> Fits(max, ms[i])
  {
    hide WellFormed, PrintableMessage, Fitting, AllAsRead, Received, MessageText;
    WellFormedAsRead(max, ms);
    FittingFits(max, ms);
    PrintableEndToEnd(max, ms, chunks);
  }
}
