/** Lists of byte strings written with a separator between the items. */
module Separated {
  import opened Octets

  /** The items between separators; always at least one. */
  function Split(sep: byte, s: Bytes): (items: seq<Bytes>)
    ensures items != []
    decreases |s|
  {
    var i := IndexOf(s, sep);
    if i == |s| then [s] else [s[..i]] + Split(sep, s[i + 1..])
  }

  function Join(sep: byte, items: seq<Bytes>): Bytes {
    if items == [] then []
    else if |items| == 1 then items[0]
    else items[0] + ([sep] + Join(sep, items[1..]))
  }

  lemma {:induction false} JoinInvertsSplit(sep: byte, s: Bytes)
    ensures Join(sep, Split(sep, s)) == s
    decreases |s|
  {
    hide IndexOf;
    var i := IndexOf(s, sep);
    if i < |s| {
      JoinInvertsSplit(sep, s[i + 1..]);
      assert Split(sep, s)[1..] == Split(sep, s[i + 1..]);
      CutAt(s, i);
    }
  }

  predicate FreeOf(sep: byte, items: seq<Bytes>) {
    forall k :: 0 <= k < |items| ==> sep !in items[k]
  }

  /** Splitting undoes joining exactly on non-empty lists of separator-free items. */
  lemma {:induction false} SplitInvertsJoin(sep: byte, items: seq<Bytes>)
    ensures Split(sep, Join(sep, items)) == items <==> items != [] && FreeOf(sep, items)
    decreases |items|
  {
    if items != [] && FreeOf(sep, items) {
      JoinedIsSplit(sep, items);
    }
    SplitIsFree(sep, Join(sep, items));
  }

  lemma {:induction false} SplitIsFree(sep: byte, s: Bytes)
    ensures FreeOf(sep, Split(sep, s))
    decreases |s|
  {
    hide IndexOf;
    var i := IndexOf(s, sep);
    if i < |s| {
      SplitIsFree(sep, s[i + 1..]);
    }
  }

  lemma {:induction false} JoinedIsSplit(sep: byte, items: seq<Bytes>)
    requires items != [] && FreeOf(sep, items)
    ensures Split(sep, Join(sep, items)) == items
    decreases |items|
  {
    hide IndexOf;
    var rest := items[1..];
    if |items| == 1 {
      NoMark(items[0], sep);
    } else {
      JoinedIsSplit(sep, rest);
      FirstMark(items[0], sep, Join(sep, rest));
    }
    assert items == [items[0]] + rest;
  }

  /** The first item of the text from start on, when the separator at i is the first there. */
  lemma FirstItem(sep: byte, src: Bytes, start: nat, i: nat)
    requires start <= i < |src| && src[i] == sep && forall k :: start <= k < i ==> src[k] != sep
    ensures Split(sep, src[start..]) == [src[start..i]] + Split(sep, src[i + 1..])
  {
    hide IndexOf;
    assert src[start..] == src[start..i] + ([sep] + src[i + 1..]);
    FirstMark(src[start..i], sep, src[i + 1..]);
  }

  lemma LastItem(sep: byte, s: Bytes)
    requires sep !in s
    ensures Split(sep, s) == [s]
  {
    NoMark(s, sep);
  }

  method SplitAll(sep: byte, src: Bytes) returns (out: seq<Bytes>)
    ensures out == Split(sep, src)
  {
    hide Split;
    out := [];
    var start, i := 0, 0;
    assert src[0..] == src && [] + Split(sep, src) == Split(sep, src);
    while i < |src|
      invariant start <= i <= |src|
      invariant forall k :: start <= k < i ==> src[k] != sep
      invariant out + Split(sep, src[start..]) == Split(sep, src)
    {
      if src[i] == sep {
        FirstItem(sep, src, start, i);
        out := out + [src[start..i]];
        start := i + 1;
      }
      i := i + 1;
    }
    LastItem(sep, src[start..]);
    assert src[start..|src|] == src[start..];
    out := out + [src[start..|src|]];
  }

  lemma {:induction false} JoinSnoc(sep: byte, items: seq<Bytes>, item: Bytes)
    ensures Join(sep, items + [item]) == if items == [] then item else Join(sep, items) + ([sep] + item)
    decreases |items|
  {
    if items != [] {
      var rest := items[1..];
      assert (items + [item])[1..] == rest + [item];
      JoinSnoc(sep, rest, item);
      if rest != [] {
        assert items[0] + ([sep] + (Join(sep, rest) + ([sep] + item)))
            == items[0] + ([sep] + Join(sep, rest)) + ([sep] + item);
      }
    }
  }

  lemma NothingJoined(sep: byte)
    ensures Join(sep, []) == []
  {
  }

  method JoinAll(sep: byte, items: seq<Bytes>) returns (out: Bytes)
    ensures out == Join(sep, items)
  {
    hide Join;
    NothingJoined(sep);
    out := [];
    var i := 0;
    while i < |items|
      invariant i <= |items|
      invariant out == Join(sep, items[..i])
    {
      JoinSnoc(sep, items[..i], items[i]);
      assert items[..i] + [items[i]] == items[..i + 1];
      if i > 0 {
        out := out + [sep];
      }
      out := out + items[i];
      i := i + 1;
    }
    assert items[..i] == items;
  }
}
