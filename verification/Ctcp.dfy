/** CTCP payloads: a command and its arguments between two \x01 bytes. */
module Ctcp {
  import opened Wrappers
  import opened Octets

  const DELIMITER: byte := 1

  datatype CtcpMessage = CtcpMessage(command: Bytes, args: Bytes)

  function ParseCtcp(text: Bytes): Option<CtcpMessage> {
    if text == [] || text[0] != DELIMITER then None
    else
      var innerEnd := if text[|text| - 1] == DELIMITER then |text| - 1 else |text|;
      if innerEnd <= 1 then Some(CtcpMessage([], []))
      else
        var inner := text[1..innerEnd];
        var sp := IndexOf(inner, SPACE);
        if sp < |inner| then Some(CtcpMessage(inner[..sp], inner[sp + 1..])) else Some(CtcpMessage(inner, []))
  }

  /** What stands between the delimiters. */
  function Inner(m: CtcpMessage): Bytes {
    if m.args == [] then m.command else m.command + ([SPACE] + m.args)
  }

  function CtcpText(m: CtcpMessage): Bytes {
    [DELIMITER] + Inner(m) + [DELIMITER]
  }

  method WriteCtcp(m: CtcpMessage) returns (text: Bytes)
    ensures text == CtcpText(m)
  {
    var out := new BytesMut();
    out.PutU8(DELIMITER);
    out.ExtendFromSlice(m.command);
    if m.args != [] {
      out.PutU8(SPACE);
      out.ExtendFromSlice(m.args);
    }
    assert out.data == [DELIMITER] + Inner(m);
    out.PutU8(DELIMITER);
    text := out.data;
  }

  lemma ParsedInner(m: CtcpMessage)
    ensures ParseCtcp(CtcpText(m)) ==
            (var inner := Inner(m);
             var sp := IndexOf(inner, SPACE);
             if sp < |inner| then Some(CtcpMessage(inner[..sp], inner[sp + 1..])) else Some(CtcpMessage(inner, [])))
  {
    hide IndexOf, Inner;
    var text := CtcpText(m);
    assert text[0] == DELIMITER && text[|text| - 1] == DELIMITER;
    assert text[1..|text| - 1] == Inner(m);
    if Inner(m) == [] {
      NoMark([], SPACE);
    }
  }

  /** A payload is read back exactly when its command holds no space. */
  lemma CtcpRoundTrip(m: CtcpMessage)
    ensures ParseCtcp(CtcpText(m)) == Some(m) <==> SPACE !in m.command
  {
    hide ParseCtcp, CtcpText, IndexOf;
    ParsedInner(m);
    if SPACE !in m.command {
      if m.args == [] {
        NoMark(m.command, SPACE);
      } else {
        FirstMark(m.command, SPACE, m.args);
      }
    } else {
      FirstSpaceIsIn(m.command, if m.args == [] then [] else [SPACE] + m.args);
      assert m.command + [] == m.command;
    }
  }

  lemma FirstSpaceIsIn(command: Bytes, rest: Bytes)
    requires SPACE in command
    ensures IndexOf(command + rest, SPACE) < |command|
  {
    var k :| 0 <= k < |command| && command[k] == SPACE;
    assert (command + rest)[k] == SPACE;
  }

  /** Only a text that starts with the delimiter is CTCP, and the delimiter at its end may be missing. */
  lemma DelimitersOfCtcp(text: Bytes)
    ensures ParseCtcp(text).Some? <==> text != [] && text[0] == DELIMITER
    ensures |text| > 1 && text[|text| - 1] != DELIMITER ==> ParseCtcp(text) == ParseCtcp(text + [DELIMITER])
  {
    if |text| > 1 {
      assert (text + [DELIMITER])[1..|text|] == text[1..|text|];
    }
  }
}
