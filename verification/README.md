# Wire, replay, admission, tracking and mirror: a model in Dafny

This project models six self-contained cores of the repository and proves what they promise.

- **The IRC wire stack** (`Octets`, `ByteClasses`, `Tags`, `Prefixes`, `Verbs`, `ParamLists`, `Messages`, `Codec`): the
  message grammar of RFC 2812 section 2.3.1 with IRCv3 message tags, its parser, its printer and the streaming line
  decoder. Byte strings are sequences of bytes; the parsers and printers are loops over indices and growing buffers,
  each proved equal to a specification function, and the theorems are about those functions. The goal theorem is
  `Codec.EndToEnd`: encode any list of messages, cut the bytes anywhere, and the same list comes out.
- **The typed layers** (`Separated`, `Commands`, `Modes`, `Ctcp`, `Dcc`, `Decimal`, `TypedWire`, `Formatting`): commands,
  mode strings, DCC requests inside CTCP, both of these through the codec, and mIRC text formatting.
- **The bouncer's replay** (`Calendar`, `Timestamps`, `ReplayBuffer`): day numbers to civil dates, the printed
  timestamp, and the ring buffer that answers "everything since" by comparing those timestamps as bytes.
- **Admission control** (`Flood`, `Limiter`, `UnpairedRelease`): the token bucket, and the per-address limiter as a state machine over the
  atomic steps of its threads, in every interleaving.
- **The tracker and its suppression step** (`Boxes`, `Nms`, `Tracker`): greedy matching, ageing and pruning over whole
  runs, and greedy non-maximum suppression.
- **The client's mirror of the server** (`ClientState`): the client's message handlers against a reference server.

`Wrappers` holds `Option` and `Result`, `Widths` the integer widths, `Reals` the smaller and the greater of two,
`WireExamples` a few lines written out. A class
stands where the source mutates fields; each of its methods states its new state as a function of the old one, and the
lemmas are about that function.

## Where the code differs from its own words

The model follows the code.

- `prefix.rs` describes any prefix with `!` or `@` as a user. The code reads one with a dot whose first `@` comes before
  its first `!` as a server, and `Prefixes.MarkedTokenIsUser` proves that those are exactly the exceptions;
  `Prefixes.MarkedServer` is one, `a@b.c!d`.
- `codec.rs` speaks of dropping an over-long line up to the next newline. The code drops what it has and reads the rest of
  the line as a new one, in whatever chunks it comes. For any positive limit that is the same exactly when the rest is
  empty or a CR (`Codec.RestOfOverlongLine`, which also has the condition for a limit of zero).
- A tag value may escape any byte, a NUL included, and the parser keeps that byte. The printer then writes it raw and
  the parser refuses it. `Messages.ParsePrintParse` says that this is the only way a parsed line fails to be read back.
- A fifteenth parameter is trailing even without its colon, so it is printed with one more byte than it was read with.
- `upstream.rs` relies on timestamps that sort as bytes. They do up to the end of the year 9999 and not one second
  longer (`Timestamps.TimestampsSortIffBelowTenThousand`).
- `buffer.rs` speaks of a scan from the back and of a binary search; the code scans from the front for the first entry not
  before the bound, which differs from a filter when entries are out of order (`ReplayBuffer.SinceIsFilterIffSorted`).
- A replay buffer of capacity zero holds one entry, because `push` makes room before it adds.
- A limiter with limit zero leaves an entry behind for each address it refuses (`Limiter.NoLeakIffLimitPositive`).
- `limiter.rs` says that a release without an acquire is safe to call because the count saturates at zero. It wraps
  instead. `UnpairedRelease.UnpairedReleaseIsSafeIffAbsent` gives the exact condition: from its lookup on, such a release
  can end with the address locked out for good if and only if the address is in the map at that lookup. With a count of
  zero, its own subtraction wraps (`UnpairedRelease.UnpairedReleaseWraps`, with the run `UnpairedRelease.SaturationFails`);
  with a count above zero it takes off the slot of a holder, and the last of the paired releases can wrap instead
  (the run `UnpairedRelease.StolenSlotWraps`). The server itself pairs every release with an acquire, where the count is
  positive.

## Model

| member | source | states |
|---|---|---|
| Tags.ParseTags | irc/crates/irc-proto/src/tags.rs:117-144 | The tag loop returns exactly what the tag grammar gives at that offset: every tag with its key and value and the offset of the space, or the error and where it is. |
| Tags.ParseKey | irc/crates/irc-proto/src/tags.rs:148-162 | The key scan gives the client-only flag and the bounds of the name, or refuses an empty name. |
| Tags.ParseValue | irc/crates/irc-proto/src/tags.rs:164-214 | The value loop unescapes as the grammar does: five named escapes, any other escaped byte verbatim, a lone backslash dropped, the end at `;`, space or the end of input. |
| Tags.WriteTags | irc/crates/irc-proto/src/tags.rs:218-237 | Appends the printed tags and leaves what was there before. |
| Tags.WriteEscapedValue | irc/crates/irc-proto/src/tags.rs:239-250 | Appends the escaped value and leaves what was there before. |
| Tags.EscapedValueParses | irc/crates/irc-proto/src/tags.rs:164-250 | Any NUL-free value, escaped anywhere in a line, is read back as itself and the reader stops right behind it. |
| Tags.ParsedValuePrints | irc/crates/irc-proto/src/tags.rs:164-250 | Escaping a value that was read never makes it longer, and gives the text it was read from exactly when that text uses only the named escapes. |
| Tags.PrintedTagsParse | irc/crates/irc-proto/src/tags.rs:117-237 | Any well-formed tag list, printed anywhere in a line before a space, is read back as itself. |
| Tags.ParsedTagsPrint | irc/crates/irc-proto/src/tags.rs:117-237 | Printing tags that were read gives their text exactly when it uses only named escapes, and they are well formed exactly when no value escapes a NUL. |
| Tags.ParsedTagsPrintNormal | irc/crates/irc-proto/src/tags.rs:164-250 | For every accepted tags region, whatever it escapes: printing the tags gives the region with each escape written by name, any other escaped byte verbatim and a lone backslash dropped; so every value is fixed. |
| Tags.TheFiveEscapes | irc/crates/irc-proto/src/tags.rs:172-194 | The five escapes of IRCv3 message tags, written out, in both directions. |
| Tags.TagsErrors | irc/crates/irc-proto/src/tags.rs:117-214 | A key error is where a key is wanted and none starts, where a key is cut off by a byte that can follow none, or at the end of the line; a value error is at a NUL, CR or LF. |
| Prefixes.ParsePrefix | irc/crates/irc-proto/src/prefix.rs:59-76 | The scan takes everything up to the next space and classifies it; an empty one is an error. |
| Prefixes.WritePrefix | irc/crates/irc-proto/src/prefix.rs:126-143 | Appends the prefix as it is printed and leaves what was there before. |
| Prefixes.ClassifyInvertsToken | irc/crates/irc-proto/src/prefix.rs:78-143 | A prefix is read back from its print if and only if its separators are where the classifier looks for them. |
| Prefixes.MarkedTokenIsUser | irc/crates/irc-proto/src/prefix.rs:9-16 | A token with `!` or `@` is read as a user if and only if it is not one with a dot whose first `@` comes before its first `!`: the exact extent of the documented rule. |
| Prefixes.MarkedServer | irc/crates/irc-proto/src/prefix.rs:78-122 | A concrete token with both marks that is read as a server. |
| Prefixes.UnmarkedTokenIsServerOrNick | irc/crates/irc-proto/src/prefix.rs:9-16 | Without a mark a token with a dot is a server and one without is a bare nick, as documented. |
| Prefixes.TokenInvertsClassify | irc/crates/irc-proto/src/prefix.rs:78-143 | Printing what any raw token is classified as gives that token back: nothing is lost. |
| Prefixes.PrintedPrefixParses | irc/crates/irc-proto/src/prefix.rs:59-143 | A well-formed prefix printed before a space is read back, and the reader stops at the space. |
| Verbs.ParseVerb | irc/crates/irc-proto/src/verb.rs:44-89 | Three digits are a numeric, letters a word, anything else an error at the byte that breaks it. |
| Verbs.WriteVerb | irc/crates/irc-proto/src/verb.rs:92-105 | Appends the verb as it is printed, a numeric as three digits. |
| Verbs.PrintedVerbParses | irc/crates/irc-proto/src/verb.rs:44-105 | Every word of letters and every numeric below 1000 is read back from its print. |
| Verbs.NumericShowsItsCode | irc/crates/irc-proto/src/verb.rs:92-105 | A numeric below 1000 prints as three digits whose decimal value is its code. |
| Verbs.ParsedVerbPrints | irc/crates/irc-proto/src/verb.rs:44-105 | Printing a verb that was read gives the very bytes it was read from. |
| ParamLists.ParseParams | irc/crates/irc-proto/src/params.rs:133-195 | The loop returns what the grammar gives: middles, a trailing one behind a colon or in the fifteenth place, every error at its offset. |
| ParamLists.WriteParams | irc/crates/irc-proto/src/params.rs:201-217 | Appends the printed params, with a colon before a last one that needs it or is marked, and leaves what was there before. |
| ParamLists.PrintedParamsParse | irc/crates/irc-proto/src/params.rs:133-217 | Any printable list is read back value by value, with the trailing mark set where the printer had to promote the last one. |
| ParamLists.ParsedParamsPrint | irc/crates/irc-proto/src/params.rs:133-217 | Parsing consumes the whole input, gives at most fifteen values of which only the last may be no middle, and prints as it was read but for a colon in front of a bare fifteenth. |
| ParamLists.ParsedParamsPrintColoned | irc/crates/irc-proto/src/params.rs:133-217 | Printing the params that were read gives the very text they were read from, with one colon put in front of a bare fifteenth one; so that param is everything to the end of the line. |
| Messages.Parse | irc/crates/irc-proto/src/message.rs:45-91 | The parser that threads one position through tags, prefix, verb and params computes the line grammar. |
| Messages.Write | irc/crates/irc-proto/src/message.rs:102-109 | Appends the line of a message and leaves what was there before. |
| Messages.PrintThenParse | irc/crates/irc-proto/src/message.rs:45-109 | A message is read back from its printed line if and only if it is well formed. |
| Messages.PrintedLineIsRead | irc/crates/irc-proto/src/message.rs:45-109 | A printable message whose trailing mark is not set as it will be read comes back with only that mark changed. |
| Messages.ParseThenPrint | irc/crates/irc-proto/src/message.rs:45-109 | Printing an accepted line gives it back if and only if it is canonical (named escapes only, no bare fifteenth param), and is never more than one byte longer. |
| Messages.ParsedLinePrintsNormalForm | irc/crates/irc-proto/src/message.rs:45-109 | For every accepted line, what its message prints is a normal form of the line found without parsing: named tag escapes and a colon before a bare fifteenth param, every other byte unchanged. |
| Messages.BareFifteenthPrintsColoned | irc/crates/irc-proto/src/params.rs:170-182 | With named escapes only, a line with a bare fifteenth param prints back as itself with a colon before that param. |
| Messages.ParsePrintParse | irc/crates/irc-proto/src/message.rs:45-109 | Parsing, printing and parsing gives the same message if and only if no tag value escapes a NUL, hence for every NUL-free line. |
| Messages.EscapedNulIsNotReadBack | irc/crates/irc-proto/src/tags.rs:192-202 | The concrete line on which it fails: accepted, printed with a raw NUL, refused at that byte. |
| Messages.PrintedLinesAreTheCanonicalOnes | irc/crates/irc-proto/src/message.rs:45-109 | The lines well-formed messages print to are exactly the accepted canonical lines. |
| Messages.ErrorsPointAtTheirCause | irc/crates/irc-proto/src/error.rs:11-44 | Every parse error names the offset of its cause, a byte, a missing key or the end of the line as the error says, and `TooManyParams` never happens. |
| Messages.PrintedLineIsClean | irc/crates/irc-proto/src/message.rs:102-109 | The line of a printable message is not empty and holds no CR, LF or NUL, which is what framing needs. |
| Codec.IrcCodec.Decode | irc/crates/irc-proto/src/codec.rs:78-113 | One call on a buffer: skips empty lines, strips one CR, returns a message, an error or None, and leaves the buffer the specification says, over-limit lines included. |
| Codec.IrcCodec.Encode | irc/crates/irc-proto/src/codec.rs:119-130 | Appends exactly the line and CRLF when it fits the limit; otherwise fails and the buffer is what it was. |
| Codec.IrcCodec.EncodeAll | irc/crates/irc-proto/src/codec.rs:119-130 | Encoding a list one by one into one buffer appends exactly the lines of the messages that fit, in order; those refused are counted and leave no trace. |
| Codec.IrcCodec.DecodeAll | irc/crates/irc-proto/src/codec.rs:78-113 | Calling `decode` until it returns None gives the events and the rest that the drain specification says. |
| Codec.IrcCodec.Feed | irc/crates/irc-proto/src/codec.rs:78-113 | Appending chunks one by one and decoding after each gives the events and the rest of the chunked run. |
| Codec.DecodeMakesProgress | irc/crates/irc-proto/src/codec.rs:78-113 | A call consumes at least one byte, or returns None and leaves a newline-free buffer within the limit; what it leaves is a suffix, or nothing when an unterminated line is too long. |
| Codec.DrainIsMeaning | irc/crates/irc-proto/src/codec.rs:78-113 | Decoding to exhaustion equals the simple meaning: split on LF, strip one CR, drop empty lines, parse each; the unterminated tail remains. |
| Codec.MeaningSplits | irc/crates/irc-proto/src/codec.rs:78-113 | The meaning of a stream is the meaning of any first part followed by the meaning of its tail with the rest. |
| Codec.RunIsMeaning | irc/crates/irc-proto/src/codec.rs:78-113 | Fed chunk by chunk and drained after each one, the decoder gives the meaning of the whole stream. |
| Codec.ChunksDoNotMatter | irc/crates/irc-proto/src/codec.rs:78-113 | Every way of cutting a stream decodes to its meaning if and only if all its newline-free segments are within the limit. |
| Codec.OverlongCut | irc/crates/irc-proto/src/codec.rs:80-99 | For any stream with an over-limit segment, a way of cutting it that decodes to something else. |
| Codec.OverlongStartsAfresh | irc/crates/irc-proto/src/codec.rs:80-89 | When what is buffered goes over the limit without a newline it is reported and dropped, and decoding goes on as if nothing had come, whatever chunks follow. |
| Codec.RestOfOverlongLine | irc/crates/irc-proto/src/codec.rs:80-89 | For every way the rest of the stream is cut, and every length of the rest of the line, reading it as a line of its own is the same as dropping it up to the newline if and only if it is empty or a CR (with a limit of zero, a CR in one chunk with its newline). |
| Codec.FirstLineDecodes | irc/crates/irc-proto/src/codec.rs:78-113 | Decoding any chunks is decoding the line up to the first newline, however it is cut, and then what follows; exactly when that first line yields nothing. |
| Codec.RestInOneChunk | irc/crates/irc-proto/src/codec.rs:80-99 | In one chunk the rest of an over-long line is reported too long again or parsed, and the if-and-only-if holds for every length. |
| Codec.RestOfStreamIsMeaning | irc/crates/irc-proto/src/codec.rs:80-113 | Within the limit, in any chunks, the error is followed by the plain meaning of the rest of the stream, the rest of the line being its first line. |
| Codec.EncodedMeansTheMessages | irc/crates/irc-proto/src/codec.rs:119-130 | The encoding of printable messages that fit is within the limit, means exactly those messages as the parser gives them back, and leaves no tail. |
| Codec.PrintableEndToEnd | irc/crates/irc-proto/src/codec.rs:78-130 | The end-to-end result for every list of printable messages: each that fits comes back with only its trailing mark as read. |
| Codec.EndToEnd | irc/crates/irc-proto/src/codec.rs:78-130 | Any list of well-formed messages, over-long ones included, encoded into one buffer and cut into any chunks, is decoded to exactly those that fit with nothing left over; that is the whole list if and only if all of them fit. |
| Separated.SplitAll | irc/crates/irc-proto/src/command.rs:538-552 | The loop that pushes the pieces between separators, the last one included, computes the split. |
| Separated.JoinAll | irc/crates/irc-proto/src/command.rs:554-567 | The loop that appends items with separators between them computes the join. |
| Separated.JoinInvertsSplit | irc/crates/irc-proto/src/command.rs:538-567 | Joining the pieces of any byte string gives it back. |
| Separated.SplitInvertsJoin | irc/crates/irc-proto/src/command.rs:538-567 | Splitting a join gives the items back if and only if the list is not empty and no item holds the separator. |
| Commands.ToParams | irc/crates/irc-proto/src/command.rs:250-363 | The params a command is built into by pushing, with its trailing mark, for every command. |
| Commands.PromoteLastToTrailingIfNeeded | irc/crates/irc-proto/src/command.rs:569-585 | Rebuilding keeps every value and marks the last one trailing exactly when it holds a space. |
| Commands.CommandRoundTrip | irc/crates/irc-proto/src/command.rs:225-585 | A command survives command to message to bytes to message to command if and only if it is unambiguous and its values can be printed. |
| Commands.PrintedParamsMean | irc/crates/irc-proto/src/command.rs:381-536 | The verb and values of an unambiguous command mean that command whichever way the trailing mark is read. |
| Commands.MeaningIsWellFormed | irc/crates/irc-proto/src/command.rs:225-233 | Whatever command a parsed message means is one that survives the wire. |
| Commands.KeywordsInAnyCase | irc/crates/irc-proto/src/command.rs:381-413 | The letter case of a keyword changes no meaning; a word that is no keyword is kept as it came. |
| Commands.CapSubsInAnyCase | irc/crates/irc-proto/src/command.rs:189-204 | The same for the subcommands of CAP. |
| Commands.RefusedIffTooFew | irc/crates/irc-proto/src/command.rs:415-536 | A keyword is refused if and only if it comes with fewer params than any unambiguous command of that name has, and the error says how many that would be and how many came. |
| Commands.ReadCommandSurvives | irc/crates/irc-proto/src/command.rs:225-363 | Every command read from any accepted line survives being printed and read again. |
| Modes.ParseChannelModes | irc/crates/irc-proto/src/mode.rs:131-157 | The loop over letters, direction and argument index computes the meaning of a mode string. |
| Modes.WriteModes | irc/crates/irc-proto/src/mode.rs:184-199 | The printer groups changes by direction and collects their arguments in order. |
| Modes.ParseUserModes | irc/crates/irc-proto/src/mode.rs:161-176 | The loop computes the meaning of a user mode string. |
| Modes.UserModesTakeNoArgs | irc/crates/irc-proto/src/mode.rs:159-176 | User modes mean what channel modes mean when no arguments are given, under any spec. |
| Modes.PrintThenRead | irc/crates/irc-proto/src/mode.rs:131-199 | A change list is read back from its print if and only if no letter is a sign, arguments stand only where the spec takes them, and none follows a missing one. |
| Modes.ReadThenPrint | irc/crates/irc-proto/src/mode.rs:131-199 | For every mode string, argument list and spec, the print is read back as the same changes and its arguments are exactly the consumed prefix. |
| Modes.LettersMeanChanges | irc/crates/irc-proto/src/mode.rs:101-157 | Each letter of any mode string gives one change and nothing else does: that letter, in the direction of the last sign before it, with the first argument no earlier change carries exactly if it is a list, prefix or set-and-unset mode, or a set-only mode being added, and an argument is left. |
| Modes.PrintIsShortest | irc/crates/irc-proto/src/mode.rs:178-199 | No mode string with the same meaning is shorter than the print by more than one byte, and the least length is attained by dropping a leading plus. |
| Ctcp.WriteCtcp | irc/crates/irc-proto/src/ctcp.rs:66-76 | The delimiters, the command, and a space with the arguments only when there are any. |
| Ctcp.CtcpRoundTrip | irc/crates/irc-proto/src/ctcp.rs:30-76 | A CTCP message is read back if and only if its command holds no space. |
| Ctcp.DelimitersOfCtcp | irc/crates/irc-proto/src/ctcp.rs:30-61 | A text is CTCP if and only if it starts with the delimiter, and the one at its end may be missing. |
| Dcc.IpRoundTrip | irc/crates/irc-proto/src/dcc.rs:17-25 | Addresses and 32-bit numbers convert both ways without loss. |
| Dcc.NetworkByteOrder | irc/crates/irc-proto/src/dcc.rs:17-25 | The loopback address and each byte alone, as numbers in network byte order. |
| Dcc.KeywordInAnyCase | irc/crates/irc-proto/src/dcc.rs:56-90 | The letter case of the request's keyword changes nothing. |
| Dcc.RequestRoundTrip | irc/crates/irc-proto/src/dcc.rs:56-110 | A DCC request of any address, port and size is read back from its arguments if and only if a SEND's filename is a non-empty, valid text without white space. |
| Dcc.PayloadRoundTrip | irc/crates/irc-proto/src/dcc.rs:56-122 | The same through the CTCP payload, whose command and arguments always come back whole. |
| Dcc.ReadPrintRead | irc/crates/irc-proto/src/dcc.rs:56-110 | Any request that was read survives being printed and read again. |
| TypedWire.CommandsEndToEnd | irc/crates/irc-proto/src/command.rs:225-363 | Any list of well-formed commands, made into messages, encoded into one buffer, cut into any chunks, decoded and read, comes back as exactly those whose lines fit, with nothing left over. |
| TypedWire.OfferIsWellFormed | irc/crates/irc-proto/src/dcc.rs:94-122 | A sendable DCC request can be the text of a private message if and only if its targets can be targets and its filename holds no NUL. |
| TypedWire.DccEndToEnd | irc/crates/irc-proto/src/dcc.rs:56-122 | A DCC request in a private message, through the codec in any chunks, is read out of the text it arrives in. |
| WireExamples.LineOfFourParts | irc/crates/irc-proto/src/message.rs:45-91 | One line written out, with two tags, an origin with user and host, a numeric and a trailing param, and the message it is. |
| WireExamples.ParamsByPlace | irc/crates/irc-proto/src/command.rs:436-510 | Which param is which of USER, JOIN and PRIVMSG. |
| WireExamples.RequestIsWritten | irc/crates/irc-proto/src/dcc.rs:56-110 | The words of one DCC SEND written out: name, address as a number, port, size. |
| Decimal.PrintedNumberParses | irc/crates/irc-proto/src/dcc.rs:56-110 | The decimal print of a number is read as that number up to the width's bound and refused above it. |
| Decimal.NumbersAreRead | irc/crates/irc-proto/src/dcc.rs:56-90 | Zeros in front and one plus sign change nothing about what a number is read as. |
| Decimal.OnlyNumbersAreRead | irc/crates/irc-proto/src/dcc.rs:56-90 | Nothing else than decimal digits behind at most one plus sign is read as a number. |
| Formatting.ReadPaletteColor | irc/crates/irc-proto/src/format.rs:201-220 | One or two digits, clamped as the source clamps them, and how many bytes were used. |
| Formatting.ParseStyled | irc/crates/irc-proto/src/format.rs:87-199 | The loop with its open run and current style emits exactly the spans of the specification. |
| Formatting.SpansAreStyled | irc/crates/irc-proto/src/format.rs:87-199 | Spans are never empty, and byte by byte they carry the text and the style that a fold over the preceding codes gives. |
| Formatting.TokensAreTheText | irc/crates/irc-proto/src/format.rs:87-182 | Every text is its control sequences, each complete, and its other bytes, joined in order. |
| Formatting.StylesAreCounted | irc/crates/irc-proto/src/format.rs:87-248 | Every byte of the spans is a plain byte of the text in order, bold if and only if the codes for bold since the last reset before it are odd in number, and so for the other five toggles; the colors are those of the last color codes since then, a palette number of at most 98 or the red, green and blue that the hex digits write. |
| Formatting.LongestSequence | irc/crates/irc-proto/src/format.rs:87-248 | The bytes taken as a control sequence are one by the grammar, and no longer start of the text is. |
| Formatting.StripIsClean | irc/crates/irc-proto/src/format.rs:253-259 | Stripped text holds no control byte, is a subsequence of the input, and stripping again changes nothing. |
| Formatting.StripKeepsTheText | irc/crates/irc-proto/src/format.rs:253-259 | The spans' texts joined are exactly the input's plain bytes in order, none lost and none added. |
| Calendar.Epoch | irc/crates/irc-bnc/src/upstream.rs:200-213 | Day zero is 1970-01-01. |
| Calendar.NextDayNumber | irc/crates/irc-bnc/src/upstream.rs:200-213 | The date of each next day number is the Gregorian next day, leap rule of 4, 100 and 400 included, for every number the 64-bit arithmetic admits. |
| Calendar.EveryDateIsValid | irc/crates/irc-bnc/src/upstream.rs:200-213 | Every day number gives a date of the calendar, no earlier than 1970. |
| Calendar.DatesIncrease | irc/crates/irc-bnc/src/upstream.rs:200-213 | Later day numbers give later dates, so no two give the same. |
| Calendar.YearOfEraBounds | irc/crates/irc-bnc/src/upstream.rs:204-206 | The year-of-era quotient is a year of the era that starts at or before the day, at most 365 days before it, so no unsigned subtraction goes below zero. |
| Calendar.YearEndsAfter | irc/crates/irc-bnc/src/upstream.rs:204-206 | It is exactly the year whose days contain the day: the next year starts after it. |
| Timestamps.TimestampsSort | irc/crates/irc-bnc/src/upstream.rs:187-197 | Before the year 10000 a printed timestamp has twenty bytes, and two compare as bytes exactly as their times do. |
| Timestamps.TimestampShowsTheTime | irc/crates/irc-bnc/src/upstream.rs:187-197 | Before the year 10000 a timestamp shows the civil date of its day and hours, minutes and seconds that add up to the time of the day, each field and mark at the offset ISO 8601 gives it. |
| Timestamps.TimestampsSortIffBelowTenThousand | irc/crates/irc-bnc/src/upstream.rs:187-197 | Timestamps below a bound sort as bytes if and only if the bound is at most the end of 9999. |
| Timestamps.TenThousandSortsBackwards | irc/crates/irc-bnc/src/upstream.rs:187-197 | The first second of the year 10000 does not sort after the last of 9999. |
| ReplayBuffer.MessageBuffer.Push | irc/crates/irc-bnc/src/buffer.rs:33-38 | Evicts the oldest entry when full, then adds; nothing else changes. |
| ReplayBuffer.BufferHoldsTheLast | irc/crates/irc-bnc/src/buffer.rs:33-59 | After any run of pushes the buffer holds exactly the last ones, as many as its capacity, in order. |
| ReplayBuffer.LastHeldAreLastPushed | irc/crates/irc-bnc/src/buffer.rs:33-59 | Asking for the last n gives the last n ever pushed, or all that the capacity keeps. |
| ReplayBuffer.SinceIsFilterIffSorted | irc/crates/irc-bnc/src/buffer.rs:40-53 | The suffix query equals the filter by timestamp for every bound if and only if the entries are sorted by timestamp. |
| ReplayBuffer.ReplaySince | irc/crates/irc-bnc/src/buffer.rs:33-53 | For any non-decreasing clock before the year 10000 and any capacity, asking since a time returns exactly the held messages that arrived at that time or later, in order. |
| ReplayBuffer.UpstreamState.BufferMessage | irc/crates/irc-bnc/src/upstream.rs:164-174 | Pushes one stamped entry to each target's buffer, makes missing buffers, and leaves every other buffer as it was. |
| ReplayBuffer.EveryTargetIsTracked | irc/crates/irc-bnc/src/upstream.rs:164-174 | After any run, each target has a buffer exactly if it was ever named, and it holds the last entries of that target's own history. |
| ReplayBuffer.BouncerReplaysSince | irc/crates/irc-bnc/src/upstream.rs:164-213 | From calendar to answer: for any run on a non-decreasing clock, exactly the targets ever named have a buffer, and a target's replay since a time is exactly its kept messages of that time or later. |
| Flood.FloodBucket.constructor | irc/crates/irc-server/src/flood.rs:20-27 | A new bucket is full. |
| Flood.FloodBucket.TryConsume | irc/crates/irc-server/src/flood.rs:31-46 | Refills for the elapsed time up to the burst, then takes one token if a whole one is there. |
| Flood.TokensAreLeastRoom | irc/crates/irc-server/src/flood.rs:20-46 | Before each call the tokens equal the smallest room any earlier window leaves: the bucket is the tightest of all windows. |
| Flood.ExactAdmission | irc/crates/irc-server/src/flood.rs:31-46 | A call is accepted if and only if no window ending at it would hold more accepted calls than burst plus rate times its length. |
| Flood.WindowBound | irc/crates/irc-server/src/flood.rs:31-46 | The calls accepted from one call to another never exceed the allowance of that window. |
| Flood.TimeWindowBound | irc/crates/irc-server/src/flood.rs:31-46 | The calls accepted in any time window of length T number at most burst + rate * T. |
| Flood.EveryCallAccepted | irc/crates/irc-server/src/connection.rs:215-218 | All calls of a run are accepted, so no client is cut off, if and only if every window of the run fits its allowance. |
| Limiter.StepKeepsInvariant | irc/crates/irc-server/src/limiter.rs:29-63 | Every atomic step of every thread keeps the counters equal to the slots held and the guards exclusive. |
| Limiter.RunKeepsInvariant | irc/crates/irc-server/src/limiter.rs:29-63 | So does every interleaving of any number of threads. |
| Limiter.CountsAreExact | irc/crates/irc-server/src/limiter.rs:29-63 | In every reachable state each address's count is the number of its holders and at most the limit. |
| Limiter.StepsAreAccounted | irc/crates/irc-server/src/limiter.rs:29-63 | A refusal happens only at the limit, an admission adds one holder, a decrement takes one off a positive count, and a removal never drops an address that has a holder. |
| Limiter.EntryIffHeld | irc/crates/irc-server/src/limiter.rs:29-63 | With a limit of at least one, in every reachable state, an address without anything pending is in the map if and only if it has a holder, whatever other addresses are doing; an entry without a holder always has something pending. |
| Limiter.NoLeakIffLimitPositive | irc/crates/irc-server/src/limiter.rs:29-63 | The map is exact for every address that has nothing pending, in every reachable state, if and only if the limit is at least one. |
| Limiter.LeakAtZeroLimit | irc/crates/irc-server/src/limiter.rs:29-44 | With limit zero, a reachable state in which every task is done and an entry nobody owns is left. |
| Limiter.SomeCallProceeds | irc/crates/irc-server/src/limiter.rs:29-63 | In every reachable state in which a call is under way, some call can take a step other than a failed exchange: no deadlock on the guards. |
| UnpairedRelease.UnpairedLookup | irc/crates/irc-server/src/limiter.rs:46-51 | A release without an acquire does nothing when the address has no entry, else finds it and shares its guard. |
| UnpairedRelease.RunBesideUnpaired | irc/crates/irc-server/src/limiter.rs:50-52 | However the others run until it subtracts, their state is one they reach without it, with the entry still there. |
| UnpairedRelease.UnpairedReleaseIsSafeIffAbsent | irc/crates/irc-server/src/limiter.rs:46-63 | From its lookup on, a release without an acquire can end in a locked-out address if and only if the address is in the map at that lookup. |
| UnpairedRelease.OneShortLocksOut | irc/crates/irc-server/src/limiter.rs:50-52 | One count short of its holders, an address can be locked out by its holders' own releases alone, whatever number they are. |
| UnpairedRelease.NothingFoundIsSafe | irc/crates/irc-server/src/limiter.rs:50-63 | When the lookup finds no entry, every later run keeps all counts exact and never locks the address out. |
| UnpairedRelease.UnpairedReleaseWraps | irc/crates/irc-server/src/limiter.rs:50-52 | Its own subtraction wraps if and only if the count is zero then, so if and only if the address has no holder, and with a limit of at least one a removal is then pending; otherwise the count is one below the holders. |
| UnpairedRelease.WrapLocksOut | irc/crates/irc-server/src/limiter.rs:29-63 | A wrapped count is the greatest there is, and no task of the address holds a slot or is about to take one. |
| UnpairedRelease.LockedOutForGood | irc/crates/irc-server/src/limiter.rs:29-63 | From then on, through every later run of the tasks there are, the entry stays at that value and no task of the address is admitted; only a further release without an acquire would lower it, by one. |
| UnpairedRelease.SaturationFails | irc/crates/irc-server/src/limiter.rs:46-63 | A run for every limit of at least one: a second release between the decrement and the removal of the first, after which all calls are done and the address is locked out. |
| UnpairedRelease.StolenSlotWraps | irc/crates/irc-server/src/limiter.rs:46-63 | A run for every limit of at least one in which the release finds a count of one and does not wrap, and the one holder's paired release then does, with the same end. |
| Boxes.IouIsSymmetric | perception/src/types.rs:73-88 | Overlap does not depend on which box is asked. |
| Boxes.IouRange | perception/src/types.rs:64-88 | Overlap of proper boxes is between 0 and 1, and for two boxes of positive area it is 1 if and only if they are the same box. |
| Boxes.IouCountsCells | perception/src/types.rs:56-88 | For boxes made of whole cells of any grid, the overlap is the number of shared cells over the number of all their cells, and 0 when they have none. |
| Nms.Nms | perception/src/pipeline/face.rs:387-407 | The in-place sort and the loops over the suppression flags compute greedy suppression. |
| Nms.SortIsSorted | perception/src/pipeline/face.rs:388-392 | The sort orders by confidence, highest first, and keeps every detection. |
| Nms.SortIsStable | perception/src/pipeline/face.rs:388-392 | Detections of equal confidence keep their order. |
| Nms.SuppressionIsSound | perception/src/pipeline/face.rs:387-407 | The kept ones are a sorted sub-multiset, no two overlap above the threshold, and every dropped copy, one of several equal detections included, overlaps above it with a kept one of at least equal confidence. |
| Nms.SuppressionIsIdempotent | perception/src/pipeline/face.rs:387-407 | Suppressing what was kept changes nothing. |
| Nms.SuppressionIgnoresOrder | perception/src/pipeline/face.rs:387-407 | With distinct confidences the result does not depend on the order of the input. |
| Tracker.ObjectTracker.Candidates | perception/src/pipeline/tracker.rs:55-65 | The pairs collected are exactly those at or above the threshold. |
| Tracker.ObjectTracker.Assign | perception/src/pipeline/tracker.rs:67-83 | The loop over sorted pairs refreshes exactly the tracks of the greedy matching and records each one's detection. |
| Tracker.ObjectTracker.AgeAndPrune | perception/src/pipeline/tracker.rs:85-93 | Unmatched tracks are one older and tracks past the maximal age are gone; the others keep their order. |
| Tracker.ObjectTracker.Spawn | perception/src/pipeline/tracker.rs:95-108 | Each unmatched detection starts a track with the next id, in order. |
| Tracker.ObjectTracker.Update | perception/src/pipeline/tracker.rs:48-120 | One frame computes the specified state and report for some order of the candidates that is sorted by overlap, whatever order the sort gives ties. |
| Tracker.GreedySettles | perception/src/pipeline/tracker.rs:67-83 | In a list of candidates in any order, each is chosen, or its track or its detection is matched in a pair that comes before it in the list. |
| Tracker.MatchingIsStable | perception/src/pipeline/tracker.rs:55-83 | The matching is injective, uses only pairs at or above the threshold, is maximal, and every pair not chosen has its track or its detection matched in a pair of at least equal overlap. |
| Tracker.UpdateIsDeterminedWithoutTies | perception/src/pipeline/tracker.rs:66-119 | Where no two qualifying pairs overlap equally, every order the sort may give yields the same matching, state and report. |
| Tracker.ReportIsFresh | perception/src/pipeline/tracker.rs:95-119 | A frame reports every detection in order with distinct ids; new ones are unused ids and all of them, others are ids of live tracks. |
| Tracker.TracksCarryTheirBoxes | perception/src/pipeline/tracker.rs:67-108 | After a frame the track under the id of a detection carries the box of that detection. |
| Tracker.ReportIsStable | perception/src/pipeline/tracker.rs:55-119 | Told from the report alone: an old id goes on only for a detection that overlaps its track at the threshold or above, and every such pair has its detection or its track go on in a pair of at least equal overlap. |
| Tracker.LiveBoxesAreTheLastReported | perception/src/pipeline/tracker.rs:48-120 | Over every run each live track carries the box of the detection last reported under its id. |
| Tracker.TracksFollowReport | perception/src/pipeline/tracker.rs:67-108 | Every track after a frame is reported in it or is an older one aged by one, every reported id has a track, and no track younger than the limit is lost. |
| Tracker.RunsKeepInvariant | perception/src/pipeline/tracker.rs:48-120 | Over every run of frames the state remembers, for each track, when it was last reported, with which box, and how often. |
| Tracker.LiveIffRecent | perception/src/pipeline/tracker.rs:85-93 | An id has a live track if and only if it was reported in one of the last `max_age` + 1 frames, so if at most `max_age` frames have gone by without it. |
| Tracker.NewExactlyOnce | perception/src/pipeline/tracker.rs:95-119 | In every frame of every run ids are distinct and in detection order, and one is reported new exactly when it was never reported before, so none is reused after pruning. |
| Tracker.NeverAbsentLong | perception/src/pipeline/tracker.rs:85-93 | Between two consecutive appearances, in any two frames of any run, an id is absent for at most `max_age` frames. |
| Tracker.IdsStayDistinct | perception/src/pipeline/tracker.rs:48-120 | Over every run live ids are distinct and below the next id, each track counts its appearances, and the ids ever reported are exactly those handed out. |
| ClientState.NetworkState.Apply | irc/crates/irc-client-core/src/state.rs:41-56 | Dispatch on the command a message means; messages that mean none change nothing. |
| ClientState.NetworkState.ApplyJoin | irc/crates/irc-client-core/src/state.rs:58-78 | The client's own join opens a channel, another's adds a nick once to a known channel. |
| ClientState.NetworkState.ApplyPart | irc/crates/irc-client-core/src/state.rs:80-91 | The client's own part closes the channel, another's removes the nick. |
| ClientState.NetworkState.ApplyNick | irc/crates/irc-client-core/src/state.rs:93-106 | A rename in every channel, and of the client itself when it is its own. |
| ClientState.NetworkState.ApplyQuit | irc/crates/irc-client-core/src/state.rs:115-125 | A quit removes the nick everywhere, or everything when it is the client's own. |
| ClientState.NetworkState.ApplyWelcome | irc/crates/irc-client-core/src/state.rs:127-135 | The welcome sets the client's nick and the server's name. |
| ClientState.NetworkState.ApplyNamReply | irc/crates/irc-client-core/src/state.rs:147-164 | A names reply adds each listed nick, stripped, once. |
| ClientState.StrippedIsTheNick | irc/crates/irc-client-core/src/state.rs:181-194 | Stripping a listed name of any mode symbols gives the member's nick. |
| ClientState.NamesAreRead | irc/crates/irc-client-core/src/state.rs:147-164 | A names reply adds exactly the nicks it lists and no duplicate. |
| ClientState.ToldStaysInAgreement | irc/crates/irc-client-core/src/state.rs:41-164 | A message that tells of a server event truthfully takes a client in agreement with the server to one in agreement with it after the event. |
| ClientState.UntoldStaysInAgreement | irc/crates/irc-client-core/src/state.rs:41-164 | An event the client need not be told of does not disturb the agreement. |
| ClientState.TopicAgrees | irc/crates/irc-client-core/src/state.rs:108-145 | A topic set or told becomes the topic of the channel if the client is in it, and changes nothing else. |
| ClientState.RunsStayInAgreement | irc/crates/irc-client-core/src/state.rs:41-164 | Agreement is kept over every consistent run. |
| ClientState.ClientMirrorsServer | irc/crates/irc-client-core/src/state.rs:41-194 | After the welcome and any consistent run the client knows its nick and the name the server gave, the tracked channels are exactly those it is in, each has the topic the server has if the client was told of it since it came in and none otherwise, each nick list is free of duplicates, holds the client and only true members, and is the whole membership once every member has been named. |

## Left out

- Sockets, tasks, TLS, databases, message queues, the GUI, inference and image processing: input and output, or foreign code.
- Clocks are parameters: the bucket and the replay are given their times, non-decreasing where the theorem says so.
- Floating-point rounding and NaN: boxes, confidences, tokens and times are reals, so comparisons are total and exact.
- Tracker.ObjectTracker.Update: ages, visible counts and the next id are unbounded, not 32 or 64 bits wide; and the candidates are sorted by insertion on values, which stands for any unstable sort, since the theorems hold for every sorted order.
- Nms.Nms: returns the kept list where the source assigns it back through its argument; the flags and loops are the source's.
- Codec.IrcCodec.Decode: buffer capacity and sharing of storage between slices are not captured; buffers are objects that hold a byte sequence.
- Codec.IrcCodec.EncodeAll: the framed reader and writer that call the codec are a library's; the loops here stand for them, and the server's own writer hangs up at the first message refused instead of going on.
- Limiter: the compare-and-swap that may fail spuriously is a step of the state machine, and the limiter is that state machine and not a class; tasks cancelled between acquire and release are not modelled, and of a release without an acquire there is one at a time.
- Dcc: a Rust string is a byte sequence that is valid UTF-8, and white space is white space of that encoding.
- The order in which hash maps are walked: no result depends on it.
- ReplayBuffer: the broadcast and registration parts of the upstream connection are left out; the lock is held for one call at a time.
- ClientState: the reference server has joins and parts of one channel at a time, no KICK, no welcome in mid-session and no case folding, none of which the client's `apply` handles beyond what is modelled.
- Mode specifications built from ISUPPORT, the vendor and short name of tag keys, builders of params, the CTCP action test, capability flags, numeric tables, glob matching and cloaks: easy members that say little.
