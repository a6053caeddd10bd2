/** Bytes, byte strings, the growable buffer the writers append to, and the two notions every
    parser of this project is specified with: the end of a run of bytes and a text found at an offset. */
module Octets {

  newtype byte = x: int | 0 <= x < 256

  type Bytes = seq<byte>

  const NUL: byte := 0
  const LF: byte := 10
  const CR: byte := 13
  const SPACE: byte := 32
  const BANG: byte := 33
  const PLUS: byte := 43
  const COMMA: byte := 44
  const MINUS: byte := 45
  const DOT: byte := 46
  const SLASH: byte := 47
  const ZERO: byte := 48
  const NINE: byte := 57
  const COLON: byte := 58
  const SEMICOLON: byte := 59
  const EQUALS: byte := 61
  const AT_SIGN: byte := 64
  const BACKSLASH: byte := 92
  const UNDERSCORE: byte := 95

  predicate IsDigit(b: byte) {
    ZERO <= b <= NINE
  }

  predicate IsLetter(b: byte) {
    65 <= b <= 90 || 97 <= b <= 122
  }

  predicate NotSpace(b: byte) {
    b != SPACE
  }

  function ToUpper(b: byte): byte {
    if 97 <= b <= 122 then b - 32 else b
  }

  function Uppercase(s: Bytes): (r: Bytes)
    ensures |r| == |s|
  {
    seq(|s|, i requires 0 <= i < |s| => ToUpper(s[i]))
  }

  /** The same letter, in perhaps another case, or the same byte. */
  predicate SameLetter(a: byte, b: byte) {
    a == b || (IsLetter(a) && IsLetter(b) && (a as int == b as int + 32 || b as int == a as int + 32))
  }

  predicate SameButCase(a: Bytes, b: Bytes) {
    |a| == |b| && forall k :: 0 <= k < |a| ==> SameLetter(a[k], b[k])
  }

  /** Folding to upper case forgets the case of letters and nothing else. */
  lemma UppercaseForgetsCase(a: Bytes, b: Bytes)
    ensures Uppercase(a) == Uppercase(b) <==> SameButCase(a, b)
  {
    if |a| == |b| {
      forall k | 0 <= k < |a|
        ensures Uppercase(a)[k] == Uppercase(b)[k] <==> SameLetter(a[k], b[k])
      {
        LettersFold(a[k], b[k]);
      }
    }
  }

  lemma LettersFold(a: byte, b: byte)
    ensures ToUpper(a) == ToUpper(b) <==> SameLetter(a, b)
  {
  }

  /** The first offset at or after i whose byte is not in p, or the end of data. */
  function Span(data: Bytes, i: nat, p: byte -> bool): (e: nat)
    requires i <= |data|
    ensures i <= e <= |data|
    ensures forall k :: i <= k < e ==> p(data[k])
    ensures e < |data| ==> !p(data[e])
    decreases |data| - i
  {
    if i < |data| && p(data[i]) then Span(data, i + 1, p) else i
  }

  lemma SpanIs(data: Bytes, i: nat, e: nat, p: byte -> bool)
    requires i <= e <= |data|
    requires forall k :: i <= k < e ==> p(data[k])
    requires e < |data| ==> !p(data[e])
    ensures Span(data, i, p) == e
  {
  }

  /** The offset of the first b in s, or |s|. */
  function IndexOf(s: Bytes, b: byte): (i: nat)
    ensures i <= |s|
    ensures i < |s| ==> s[i] == b
    ensures forall k :: 0 <= k < i ==> s[k] != b
  {
    if s == [] || s[0] == b then 0 else 1 + IndexOf(s[1..], b)
  }

  lemma CutAt(s: Bytes, i: nat)
    requires i < |s|
    ensures s == s[..i] + ([s[i]] + s[i + 1..])
  {
  }

  /** The first mark of a text made of a mark-free part, the mark and anything. */
  lemma FirstMark(a: Bytes, mark: byte, b: Bytes)
    requires mark !in a
    ensures IndexOf(a + ([mark] + b), mark) == |a|
    ensures (a + ([mark] + b))[..|a|] == a && (a + ([mark] + b))[|a| + 1..] == b
  {
    var s := a + ([mark] + b);
    FirstIndex(s, mark, |a|);
  }

  lemma FirstIndex(s: Bytes, mark: byte, i: nat)
    requires i < |s| && s[i] == mark && mark !in s[..i]
    ensures IndexOf(s, mark) == i
  {
    forall k | 0 <= k < i
      ensures s[k] != mark
    {
      assert s[..i][k] == s[k];
    }
  }

  lemma NoMark(s: Bytes, mark: byte)
    ensures IndexOf(s, mark) == |s| <==> mark !in s
  {
  }

  /** The text w is found in data at offset i. */
  predicate At(data: Bytes, i: nat, w: Bytes) {
    i + |w| <= |data| && data[i..i + |w|] == w
  }

  lemma AtSplit(data: Bytes, i: nat, a: Bytes, b: Bytes)
    ensures At(data, i, a + b) <==> At(data, i, a) && At(data, i + |a|, b)
  {
    if At(data, i, a + b) {
      assert data[i..i + |a|] == (a + b)[..|a|];
      assert data[i + |a|..i + |a| + |b|] == (a + b)[|a|..];
    }
    if At(data, i, a) && At(data, i + |a|, b) {
      assert data[i..i + |a + b|] == data[i..i + |a|] + data[i + |a|..i + |a| + |b|];
    }
  }

  lemma Associates(a: Bytes, b: Bytes, c: Bytes)
    ensures (a + b) + c == a + (b + c)
  {
  }

  lemma AddNothing(a: Bytes)
    ensures a + [] == a && [] + a == a
  {
  }

  lemma AtEmpty(data: Bytes, i: nat)
    requires i <= |data|
    ensures At(data, i, [])
  {
  }

  lemma AtOne(data: Bytes, i: nat, b: byte)
    ensures At(data, i, [b]) <==> i < |data| && data[i] == b
  {
    if i < |data| {
      assert data[i..i + 1] == [data[i]];
    }
  }

  /** The growable byte buffer of the bytes crate, as the wire layer uses it. */
  class BytesMut {
    var data: Bytes

    constructor ()
      ensures data == []
    {
      data := [];
    }

    method PutU8(b: byte)
      modifies this
      ensures data == old(data) + [b]
    {
      data := data + [b];
    }

    method ExtendFromSlice(s: Bytes)
      modifies this
      ensures data == old(data) + s
    {
      data := data + s;
    }

    method Truncate(n: nat)
      modifies this
      ensures data == if n <= |old(data)| then old(data)[..n] else old(data)
    {
      if n <= |data| {
        data := data[..n];
      }
    }

    method Advance(n: nat)
      requires n <= |data|
      modifies this
      ensures data == old(data)[n..]
    {
      data := data[n..];
    }

    method SplitTo(n: nat) returns (head: Bytes)
      requires n <= |data|
      modifies this
      ensures head == old(data)[..n] && data == old(data)[n..]
    {
      head := data[..n];
      data := data[n..];
    }

    method Clear()
      modifies this
      ensures data == []
    {
      data := [];
    }
  }
}
