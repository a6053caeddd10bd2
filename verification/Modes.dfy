/** Channel mode strings: reading them with their arguments, printing them back, and how short the print is. */
module Modes {
  import opened Wrappers
  import opened Octets

  datatype ModeSpec = ModeSpec(listModes: Bytes, setUnsetModes: Bytes, setOnlyModes: Bytes, flagModes: Bytes,
                               prefixModes: Bytes)

  datatype ModeChange = ModeChange(adding: bool, letter: byte, arg: Option<Bytes>)

  function ArgCount(spec: ModeSpec, letter: byte, adding: bool): nat {
    if letter in spec.prefixModes || letter in spec.listModes then 1
    else if letter in spec.setUnsetModes then 1
    else if letter in spec.setOnlyModes then (if adding then 1 else 0)
    else 0
  }

  // ----- Reading -----

  /** The letter takes the next argument, when there is one left. */
  predicate Takes(spec: ModeSpec, letter: byte, adding: bool, args: seq<Bytes>) {
    ArgCount(spec, letter, adding) == 1 && args != []
  }

  /** The changes a mode string means, given the arguments still unread and the current direction. */
  function Read(changes: Bytes, args: seq<Bytes>, spec: ModeSpec, adding: bool): seq<ModeChange> {
    if changes == [] then []
    else if changes[0] == PLUS then Read(changes[1..], args, spec, true)
    else if changes[0] == MINUS then Read(changes[1..], args, spec, false)
    else if Takes(spec, changes[0], adding, args) then
      [ModeChange(adding, changes[0], Some(args[0]))] + Read(changes[1..], args[1..], spec, adding)
    else [ModeChange(adding, changes[0], None)] + Read(changes[1..], args, spec, adding)
  }

  /** How many arguments it uses up. */
  function Used(changes: Bytes, args: seq<Bytes>, spec: ModeSpec, adding: bool): (n: nat)
    ensures n <= |args|
  {
    if changes == [] then 0
    else if changes[0] == PLUS then Used(changes[1..], args, spec, true)
    else if changes[0] == MINUS then Used(changes[1..], args, spec, false)
    else if Takes(spec, changes[0], adding, args) then 1 + Used(changes[1..], args[1..], spec, adding)
    else Used(changes[1..], args, spec, adding)
  }

  /** One byte of a mode string, at offset i with k arguments used. */
  lemma ReadStep(changes: Bytes, args: seq<Bytes>, spec: ModeSpec, adding: bool, i: nat, k: nat)
    requires i < |changes| && k <= |args|
    ensures Read(changes[i..], args[k..], spec, adding) ==
            if changes[i] == PLUS then Read(changes[i + 1..], args[k..], spec, true)
            else if changes[i] == MINUS then Read(changes[i + 1..], args[k..], spec, false)
            else if ArgCount(spec, changes[i], adding) == 1 && k < |args| then
              [ModeChange(adding, changes[i], Some(args[k]))] + Read(changes[i + 1..], args[k + 1..], spec, adding)
            else [ModeChange(adding, changes[i], None)] + Read(changes[i + 1..], args[k..], spec, adding)
  {
    hide ArgCount;
    assert changes[i..][0] == changes[i] && changes[i..][1..] == changes[i + 1..];
    if k < |args| {
      assert args[k..][0] == args[k] && args[k..][1..] == args[k + 1..];
    }
  }

  /** The changes read so far, with what the rest of the string means, are what the whole means. */
  ghost predicate ReadSoFar(changes: Bytes, args: seq<Bytes>, spec: ModeSpec, adding: bool, i: nat, k: nat,
                            out: seq<ModeChange>)
  {
    i <= |changes| && k <= |args| &&
    out + Read(changes[i..], args[k..], spec, adding) == Read(changes, args, spec, true)
  }

  /** The letter at offset i, with the argument it takes if any, added to the output. */
  lemma ReadOne(changes: Bytes, args: seq<Bytes>, spec: ModeSpec, adding: bool, i: nat, k: nat,
                out: seq<ModeChange>)
    requires i < |changes| && ReadSoFar(changes, args, spec, adding, i, k, out)
    ensures changes[i] == PLUS ==> ReadSoFar(changes, args, spec, true, i + 1, k, out)
    ensures changes[i] == MINUS ==> ReadSoFar(changes, args, spec, false, i + 1, k, out)
    ensures changes[i] != PLUS && changes[i] != MINUS ==>
              if ArgCount(spec, changes[i], adding) == 1 && k < |args| then
                ReadSoFar(changes, args, spec, adding, i + 1, k + 1,
                          out + [ModeChange(adding, changes[i], Some(args[k]))])
              else
                ReadSoFar(changes, args, spec, adding, i + 1, k, out + [ModeChange(adding, changes[i], None)])
  {
    hide ArgCount, Read;
    ReadStep(changes, args, spec, adding, i, k);
  }

  lemma NothingRead(changes: Bytes, args: seq<Bytes>, spec: ModeSpec)
    ensures ReadSoFar(changes, args, spec, true, 0, 0, [])
  {
    hide Read;
    assert changes[0..] == changes && args[0..] == args;
  }

  lemma AllRead(changes: Bytes, args: seq<Bytes>, spec: ModeSpec, adding: bool, k: nat, out: seq<ModeChange>)
    requires ReadSoFar(changes, args, spec, adding, |changes|, k, out)
    ensures out == Read(changes, args, spec, true)
  {
    hide Read;
    assert changes[|changes|..] == [];
    NothingLeft(args[k..], spec, adding);
  }

  method ParseChannelModes(changes: Bytes, args: seq<Bytes>, spec: ModeSpec) returns (out: seq<ModeChange>)
    ensures out == Read(changes, args, spec, true)
  {
    hide ArgCount, Read, ReadSoFar;
    out := [];
    var adding := true;
    var argIdx := 0;
    NothingRead(changes, args, spec);
    for i := 0 to |changes|
      invariant argIdx <= |args|
      invariant ReadSoFar(changes, args, spec, adding, i, argIdx, out)
    {
      var letter := changes[i];
      ReadOne(changes, args, spec, adding, i, argIdx, out);
      if letter == PLUS {
        adding := true;
      } else if letter == MINUS {
        adding := false;
      } else {
        var take := ArgCount(spec, letter, adding);
        if take == 1 && argIdx < |args| {
          out := out + [ModeChange(adding, letter, Some(args[argIdx]))];
          argIdx := argIdx + 1;
        } else {
          out := out + [ModeChange(adding, letter, None)];
        }
      }
    }
    AllRead(changes, args, spec, adding, argIdx, out);
  }

  lemma NothingLeft(args: seq<Bytes>, spec: ModeSpec, adding: bool)
    ensures Read([], args, spec, adding) == []
  {
  }

  // ----- Printing -----

  function Sign(adding: bool): Bytes {
    if adding then [PLUS] else [MINUS]
  }

  /** Each change's letter, after a sign where the direction changes. */
  function Printed(changes: seq<ModeChange>, last: Option<bool>): Bytes {
    if changes == [] then []
    else
      (if last == Some(changes[0].adding) then [] else Sign(changes[0].adding))
      + ([changes[0].letter] + Printed(changes[1..], Some(changes[0].adding)))
  }

  function PrintedArgs(changes: seq<ModeChange>): seq<Bytes> {
    if changes == [] then []
    else (if changes[0].arg.Some? then [changes[0].arg.value] else []) + PrintedArgs(changes[1..])
  }

  /** The text and arguments printed so far, with what the rest prints, are the whole print. */
  ghost predicate PrintedSoFar(changes: seq<ModeChange>, last: Option<bool>, i: nat, text: Bytes, args: seq<Bytes>) {
    && i <= |changes|
    && text + Printed(changes[i..], last) == Printed(changes, None)
    && args + PrintedArgs(changes[i..]) == PrintedArgs(changes)
  }

  lemma PrintOne(changes: seq<ModeChange>, last: Option<bool>, i: nat, text: Bytes, args: seq<Bytes>)
    requires i < |changes| && PrintedSoFar(changes, last, i, text, args)
    ensures var ch := changes[i];
            PrintedSoFar(changes, Some(ch.adding), i + 1,
                         (if last == Some(ch.adding) then text else text + Sign(ch.adding)) + [ch.letter],
                         if ch.arg.Some? then args + [ch.arg.value] else args)
  {
    hide Sign;
    var ch := changes[i];
    assert changes[i..][0] == ch && changes[i..][1..] == changes[i + 1..];
    var rest := Printed(changes[i + 1..], Some(ch.adding));
    var sign := if last == Some(ch.adding) then [] else Sign(ch.adding);
    assert text + (sign + ([ch.letter] + rest)) == text + sign + [ch.letter] + rest;
  }

  lemma NothingPrinted(changes: seq<ModeChange>)
    ensures PrintedSoFar(changes, None, 0, [], [])
  {
    hide Printed, PrintedArgs;
    assert changes[0..] == changes;
  }

  lemma AllPrinted(changes: seq<ModeChange>, last: Option<bool>, text: Bytes, args: seq<Bytes>)
    requires PrintedSoFar(changes, last, |changes|, text, args)
    ensures text == Printed(changes, None) && args == PrintedArgs(changes)
  {
    assert changes[|changes|..] == [];
  }

  method WriteModes(changes: seq<ModeChange>) returns (text: Bytes, args: seq<Bytes>)
    ensures text == Printed(changes, None) && args == PrintedArgs(changes)
  {
    hide Printed, PrintedArgs, PrintedSoFar;
    text, args := [], [];
    var lastDir: Option<bool> := None;
    NothingPrinted(changes);
    for i := 0 to |changes|
      invariant PrintedSoFar(changes, lastDir, i, text, args)
    {
      var ch := changes[i];
      PrintOne(changes, lastDir, i, text, args);
      if lastDir != Some(ch.adding) {
        text := text + Sign(ch.adding);
        lastDir := Some(ch.adding);
      }
      text := text + [ch.letter];
      if ch.arg.Some? {
        args := args + [ch.arg.value];
      }
    }
    AllPrinted(changes, lastDir, text, args);
  }

  // ----- Round trips -----

  /** No letter is a sign, an argument is there only for a letter that takes one, and once one is missing none follows. */
  predicate Readable(changes: seq<ModeChange>, spec: ModeSpec) {
    changes == [] ||
    (var c := changes[0];
     && c.letter != PLUS && c.letter != MINUS
     && (c.arg.Some? ==> ArgCount(spec, c.letter, c.adding) == 1)
     && (c.arg.None? && ArgCount(spec, c.letter, c.adding) == 1 ==> PrintedArgs(changes[1..]) == [])
     && Readable(changes[1..], spec))
  }

  lemma {:induction false} ReadIsReadable(text: Bytes, args: seq<Bytes>, spec: ModeSpec, adding: bool)
    ensures Readable(Read(text, args, spec, adding), spec)
    ensures PrintedArgs(Read(text, args, spec, adding)) == args[..Used(text, args, spec, adding)]
    decreases |text|
  {
    hide ArgCount;
    if text != [] {
      var rest := text[1..];
      if text[0] == PLUS || text[0] == MINUS {
        ReadIsReadable(rest, args, spec, text[0] == PLUS);
      } else if Takes(spec, text[0], adding, args) {
        ReadIsReadable(rest, args[1..], spec, adding);
        assert Read(text, args, spec, adding)[1..] == Read(rest, args[1..], spec, adding);
        var n := Used(rest, args[1..], spec, adding);
        assert [args[0]] + args[1..][..n] == args[..n + 1];
      } else {
        ReadIsReadable(rest, args, spec, adding);
        assert Read(text, args, spec, adding)[1..] == Read(rest, args, spec, adding);
      }
    }
  }

  /** Reading one printed change: its sign if there is one, its letter, its argument if it has one. */
  lemma PrintedChangeReads(c: ModeChange, last: Option<bool>, adding: bool, text: Bytes, args: seq<Bytes>, spec: ModeSpec)
    requires c.letter != PLUS && c.letter != MINUS
    requires c.arg.Some? ==> ArgCount(spec, c.letter, c.adding) == 1
    requires c.arg.None? && ArgCount(spec, c.letter, c.adding) == 1 ==> args == []
    requires last.Some? ==> last.value == adding
    ensures Read((if last == Some(c.adding) then [] else Sign(c.adding)) + ([c.letter] + text),
                 (if c.arg.Some? then [c.arg.value] else []) + args, spec, adding)
         == [c] + Read(text, args, spec, c.adding)
  {
    hide ArgCount;
    var all := (if c.arg.Some? then [c.arg.value] else []) + args;
    var line := [c.letter] + text;
    assert line[1..] == text && (c.arg.Some? ==> all[1..] == args) && (c.arg.None? ==> all == args);
    assert Read(line, all, spec, c.adding) == [c] + Read(text, args, spec, c.adding);
    if last == Some(c.adding) {
      assert [] + line == line;
    } else {
      assert (Sign(c.adding) + line)[1..] == line;
    }
  }

  lemma {:induction false} PrintedChangesRead(changes: seq<ModeChange>, spec: ModeSpec, last: Option<bool>, adding: bool)
    requires Readable(changes, spec) && (last.Some? ==> last.value == adding)
    ensures Read(Printed(changes, last), PrintedArgs(changes), spec, adding) == changes
    decreases |changes|
  {
    hide ArgCount, Read;
    if changes == [] {
      NothingToRead(spec, adding);
    } else {
      var c, rest := changes[0], changes[1..];
      PrintedChangesRead(rest, spec, Some(c.adding), c.adding);
      PrintedChangeReads(c, last, adding, Printed(rest, Some(c.adding)), PrintedArgs(rest), spec);
      assert [c] + rest == changes;
    }
  }

  lemma NothingToRead(spec: ModeSpec, adding: bool)
    ensures Read([], [], spec, adding) == []
  {
  }

  /** A change list is read back from its print exactly when it is readable. */
  lemma PrintThenRead(changes: seq<ModeChange>, spec: ModeSpec)
    ensures Read(Printed(changes, None), PrintedArgs(changes), spec, true) == changes <==> Readable(changes, spec)
  {
    if Readable(changes, spec) {
      PrintedChangesRead(changes, spec, None, true);
    }
    ReadIsReadable(Printed(changes, None), PrintedArgs(changes), spec, true);
  }

  /** For any mode string: its print means the same changes, and the printed args are the arguments it used. */
  lemma ReadThenPrint(text: Bytes, args: seq<Bytes>, spec: ModeSpec)
    ensures var changes := Read(text, args, spec, true);
            && Read(Printed(changes, None), PrintedArgs(changes), spec, true) == changes
            && PrintedArgs(changes) == args[..Used(text, args, spec, true)]
  {
    ReadIsReadable(text, args, spec, true);
    PrintThenRead(Read(text, args, spec, true), spec);
  }

  // ----- How short the print is -----

  lemma {:induction false} NoShorterText(text: Bytes, args: seq<Bytes>, spec: ModeSpec, adding: bool)
    ensures |Printed(Read(text, args, spec, adding), Some(adding))| <= |text|
    decreases |text|
  {
    hide ArgCount;
    if text != [] {
      var rest := text[1..];
      if text[0] == PLUS || text[0] == MINUS {
        var sign := text[0] == PLUS;
        NoShorterText(rest, args, spec, sign);
        SignCostsOne(Read(rest, args, spec, sign), Some(adding), Some(sign));
      } else if Takes(spec, text[0], adding, args) {
        NoShorterText(rest, args[1..], spec, adding);
        assert Read(text, args, spec, adding)[1..] == Read(rest, args[1..], spec, adding);
      } else {
        NoShorterText(rest, args, spec, adding);
        assert Read(text, args, spec, adding)[1..] == Read(rest, args, spec, adding);
      }
    }
  }

  lemma SignCostsOne(changes: seq<ModeChange>, a: Option<bool>, b: Option<bool>)
    ensures |Printed(changes, a)| <= |Printed(changes, b)| + 1
  {
  }

  /** The least length of a mode string with a given meaning: the print, without its first sign when that is a plus. */
  function LeastLength(changes: seq<ModeChange>): int {
    |Printed(changes, None)| - if changes != [] && changes[0].adding then 1 else 0
  }

  /** No mode string with the same meaning is shorter than the least length, one of that length exists, and the print
      is at most one byte longer than any. */
  lemma PrintIsShortest(text: Bytes, args: seq<Bytes>, spec: ModeSpec)
    ensures var changes := Read(text, args, spec, true);
            && |Printed(changes, None)| <= |text| + 1
            && LeastLength(changes) <= |text|
            && |Printed(changes, Some(true))| == LeastLength(changes)
            && Read(Printed(changes, Some(true)), PrintedArgs(changes), spec, true) == changes
  {
    hide ArgCount, Read;
    NoShorterText(text, args, spec, true);
    ReadIsReadable(text, args, spec, true);
    PrintedChangesRead(Read(text, args, spec, true), spec, Some(true), true);
  }

  // ----- What each letter of a mode string means -----

  /** The classes that take an argument: lists, prefixes and set-and-unset modes always, set-only modes when added. */
  predicate WantsArgument(spec: ModeSpec, letter: byte, adding: bool) {
    || letter in spec.listModes || letter in spec.prefixModes || letter in spec.setUnsetModes
    || (letter in spec.setOnlyModes && adding)
  }

  /** The last sign of a text says the direction, or the direction before it where there is none. */
  predicate LastSign(text: Bytes, before: bool) {
    if text == [] then before
    else if text[|text| - 1] == PLUS then true
    else if text[|text| - 1] == MINUS then false
    else LastSign(text[..|text| - 1], before)
  }

  /** How many letters, signs left out. */
  function Letters(text: Bytes): nat {
    if text == [] then 0
    else Letters(text[..|text| - 1]) + if text[|text| - 1] == PLUS || text[|text| - 1] == MINUS then 0 else 1
  }

  lemma {:induction false} FirstByteOf(text: Bytes, before: bool)
    requires text != []
    ensures var b := text[0];
            var now := if b == PLUS then true else if b == MINUS then false else before;
            && LastSign(text, before) == LastSign(text[1..], now)
            && Letters(text) == (if b == PLUS || b == MINUS then 0 else 1) + Letters(text[1..])
  {
    var n := |text| - 1;
    if n == 0 {
      assert text[..0] == [] && text[1..] == [];
    } else {
      FirstByteOf(text[..n], before);
      assert text[..n][1..] == text[1..][..n - 1];
    }
  }

  /** The change a letter means: the letter, in the direction of the last sign before it, with the next argument that no
      earlier change carries if its class wants one and there is one left. */
  ghost predicate MeansAt(changes: seq<ModeChange>, text: Bytes, args: seq<Bytes>, spec: ModeSpec, before: bool, i: nat)
    requires i < |text|
  {
    var j := Letters(text[..i]);
    var adding := LastSign(text[..i], before);
    && j < |changes|
    && changes[j].letter == text[i] && changes[j].adding == adding
    && var k := |PrintedArgs(changes[..j])|;
    && k <= |args|
    && changes[j].arg == if WantsArgument(spec, text[i], adding) && k < |args| then Some(args[k]) else None
  }

  /** Every letter of any mode string means its change, and there are no other changes. */
  lemma {:induction false} LettersMeanChanges(text: Bytes, args: seq<Bytes>, spec: ModeSpec, before: bool)
    ensures var changes := Read(text, args, spec, before);
            && |changes| == Letters(text)
            && forall i :: 0 <= i < |text| && text[i] != PLUS && text[i] != MINUS ==>
                             MeansAt(changes, text, args, spec, before, i)
    decreases |text|
  {
    hide MeansAt;
    var changes := Read(text, args, spec, before);
    if text != [] {
      FirstByteOf(text, before);
      var rest := text[1..];
      if text[0] == PLUS || text[0] == MINUS {
        LettersMeanChanges(rest, args, spec, text[0] == PLUS);
        forall i | 0 <= i < |text| && text[i] != PLUS && text[i] != MINUS
          ensures MeansAt(changes, text, args, spec, before, i)
        {
          BehindSign(changes, text, args, spec, before, i);
        }
      } else {
        var taken := if Takes(spec, text[0], before, args) then 1 else 0;
        LettersMeanChanges(rest, args[taken..], spec, before);
        assert args[0..] == args;
        forall i | 0 <= i < |text| && text[i] != PLUS && text[i] != MINUS
          ensures MeansAt(changes, text, args, spec, before, i)
        {
          if i == 0 {
            FirstLetterMeans(text, args, spec, before);
          } else {
            BehindLetter(changes, text, args, spec, before, i, taken);
          }
        }
      }
    }
  }

  lemma BehindSign(changes: seq<ModeChange>, text: Bytes, args: seq<Bytes>, spec: ModeSpec, before: bool, i: nat)
    requires 0 < i < |text| && (text[0] == PLUS || text[0] == MINUS)
    requires MeansAt(changes, text[1..], args, spec, text[0] == PLUS, i - 1)
    ensures MeansAt(changes, text, args, spec, before, i)
  {
    hide WantsArgument, PrintedArgs;
    FirstByteOf(text[..i], before);
    assert text[..i][1..] == text[1..][..i - 1];
  }

  lemma FirstLetterMeans(text: Bytes, args: seq<Bytes>, spec: ModeSpec, before: bool)
    requires text != [] && text[0] != PLUS && text[0] != MINUS
    ensures MeansAt(Read(text, args, spec, before), text, args, spec, before, 0)
  {
    assert text[..0] == [] && Read(text, args, spec, before)[..0] == [];
  }

  lemma BehindLetter(changes: seq<ModeChange>, text: Bytes, args: seq<Bytes>, spec: ModeSpec, before: bool, i: nat,
                     taken: nat)
    requires 0 < i < |text| && text[0] != PLUS && text[0] != MINUS && changes != []
    requires taken <= |args| && taken == |PrintedArgs([changes[0]])|
    requires MeansAt(changes[1..], text[1..], args[taken..], spec, before, i - 1)
    ensures MeansAt(changes, text, args, spec, before, i)
  {
    hide WantsArgument;
    FirstByteOf(text[..i], before);
    assert text[..i][1..] == text[1..][..i - 1];
    var j := Letters(text[1..][..i - 1]);
    assert changes[..j + 1][1..] == changes[1..][..j];
  }

  // ----- User modes -----

  function ReadUser(changes: Bytes, adding: bool): seq<ModeChange> {
    if changes == [] then []
    else if changes[0] == PLUS then ReadUser(changes[1..], true)
    else if changes[0] == MINUS then ReadUser(changes[1..], false)
    else [ModeChange(adding, changes[0], None)] + ReadUser(changes[1..], adding)
  }

  /** User modes are channel modes without arguments, under any spec. */
  lemma {:induction false} UserModesTakeNoArgs(changes: Bytes, spec: ModeSpec, adding: bool)
    ensures ReadUser(changes, adding) == Read(changes, [], spec, adding)
    decreases |changes|
  {
    if changes != [] {
      UserModesTakeNoArgs(changes[1..], spec,
        if changes[0] == PLUS then true else if changes[0] == MINUS then false else adding);
    }
  }

  method ParseUserModes(changes: Bytes) returns (out: seq<ModeChange>)
    ensures out == ReadUser(changes, true)
  {
    hide ReadUser;
    out := [];
    var adding := true;
    assert changes[0..] == changes;
    for i := 0 to |changes|
      invariant out + ReadUser(changes[i..], adding) == ReadUser(changes, true)
    {
      ReadUserStep(changes, adding, i);
      if changes[i] == PLUS {
        adding := true;
      } else if changes[i] == MINUS {
        adding := false;
      } else {
        out := out + [ModeChange(adding, changes[i], None)];
      }
    }
    assert changes[|changes|..] == [];
    NoUserModes(adding);
  }

  lemma ReadUserStep(changes: Bytes, adding: bool, i: nat)
    requires i < |changes|
    ensures ReadUser(changes[i..], adding) ==
            if changes[i] == PLUS then ReadUser(changes[i + 1..], true)
            else if changes[i] == MINUS then ReadUser(changes[i + 1..], false)
            else [ModeChange(adding, changes[i], None)] + ReadUser(changes[i + 1..], adding)
  {
    assert changes[i..][0] == changes[i] && changes[i..][1..] == changes[i + 1..];
  }

  lemma NoUserModes(adding: bool)
    ensures ReadUser([], adding) == []
  {
  }
}
