# A verified model of the dnx JSON reader

This project models the hand-written JSON reader of dnx,
`src/Microsoft.Framework.Runtime.Hosting/Json/`. The reader has three parts:

- `JsonBuffer`, a lexer. It reads UTF-16 code units from a `TextReader` and
  keeps `_line` and `_column` up to date. Each `Read()` returns one
  `JsonToken`.
- `JsonDeserializer`, a recursive-descent parser. It pulls those tokens and
  builds a tree of `JsonValue`s.
- The records the parser builds: `JsonNull`, `JsonBoolean`, `JsonNumber`,
  `JsonPosition` and `JsonToken`.

Both stateful classes are modelled twice:

- **Functions.** `JsonBufferSpec` and `JsonDeserializerSpec` describe each
  step as a function of the input and a `Cursor`. A cursor is the reader
  position together with `_line` and `_column`.
- **Classes.** `JsonBuffer.JsonBuffer` and `JsonDeserializer.JsonDeserializer`
  keep the source's loops and mutable fields. Each method is proved to give
  what the function of the same step gives from the state it was called in.

`JsonBufferProperties` and `JsonDeserializerProperties` prove what the code
promises about those functions:

- Line and column bookkeeping, and whitespace skipping.
- The shape of each token, and the literal and string errors.
- Escape round trips.
- When an input is accepted, that empty input gives null, and that arrays
  and objects keep what they have read.

`JsonDeserializerExamples` works out the cases of
`JsonDeserializerFacts.cs`, plus the trailing-comma, duplicate-name and
extra-token edge cases, on concrete inputs.

Modules:

| file | module | models |
|---|---|---|
| JsonConstants.dfy | JsonConstants | character codes and literal names of JsonConstants.cs |
| JsonPosition.dfy | JsonPosition | JsonPosition.cs |
| JsonToken.dfy | JsonToken | JsonToken.cs |
| JsonErrors.dfy | JsonErrors | the errors raised (kind, detail, line, column) and `Result` |
| JsonPrimitive.dfy | JsonPrimitive | JsonPrimitive.cs and the value tree |
| JsonBufferSpec.dfy | JsonBufferSpec | JsonBuffer.cs as functions |
| JsonBuffer.dfy | JsonBuffer | JsonBuffer.cs as a class |
| JsonBufferProperties.dfy | JsonBufferProperties | lemmas about the lexer |
| JsonDeserializerSpec.dfy | JsonDeserializerSpec | JsonDeserializer.cs as functions |
| JsonDeserializer.dfy | JsonDeserializer | JsonDeserializer.cs as a class |
| JsonDeserializerProperties.dfy | JsonDeserializerProperties | lemmas about the parser |
| JsonDeserializerExamples.dfy | JsonDeserializerExamples | worked inputs |

Modelling choices:

- **Reader.** The reader is a `seq<CodeUnit>` plus a position. `Peek` is the
  unit at the position, or -1 past the end. `Read` is the same, and then
  advances.
- **Exceptions.** A thrown `JsonDeserializerException` becomes `Err` with the
  error kind, the detail its message would format, and the line and column.
- **Argument exceptions.** `ArgumentNullException` and `ArgumentException`
  are separate error cases.
- **Null.** .NET `null` for "no value" is `Option.None`.
- **Number conversion.** `double.Parse` is a parameter
  `parseDouble: seq<CodeUnit> -> DoubleParse`. It gives a real number, a
  format failure or an overflow.

The model follows the code where the code departs from JSON as specified in
RFC 8259:

- After the first unit, a number takes only digits, `.`, `e` and `E`.
- A `]` or `}` right after a comma closes the container.
- Duplicate member names are rejected.
- The line-feed check inside `ReadString` is kept, although
  `ReadNextChar` never returns a line feed. `RawLineFeedDropped` shows that
  a raw line break inside a string is dropped.

## Model

| member | source | states |
|---|---|---|
| JsonPosition.NewPosition | src/Microsoft.Framework.Runtime.Hosting/Json/JsonPosition.cs:8-12 | the position holds exactly the given line and column; a datatype value has no setter |
| JsonPosition.Equals | src/Microsoft.Framework.Runtime.Hosting/Json/JsonPosition.cs:18-24 | true iff the other object is a position with the same line and column; false for null and for objects of other classes |
| JsonPosition.EqualsReflexive | src/Microsoft.Framework.Runtime.Hosting/Json/JsonPosition.cs:18-24 | every position equals itself |
| JsonPosition.EqualsSymmetric | src/Microsoft.Framework.Runtime.Hosting/Json/JsonPosition.cs:18-24 | equality of positions is symmetric |
| JsonPosition.EqualsIsValueEquality | src/Microsoft.Framework.Runtime.Hosting/Json/JsonPosition.cs:18-24 | two positions are `Equals` exactly when they are the same value |
| JsonToken.GetPosition | src/Microsoft.Framework.Runtime.Hosting/Json/JsonToken.cs:13-16 | the position's line and column are the token's |
| JsonToken.GetPositionStable | src/Microsoft.Framework.Runtime.Hosting/Json/JsonToken.cs:13-16 | two calls on one token give positions that are `Equals` |
| JsonToken.TokenTypesAreTwelve | src/Microsoft.Framework.Runtime.Hosting/Json/JsonToken.cs:19-33 | there are exactly twelve distinct token kinds, every kind is one of them, and the last is EOL |
| JsonPrimitive.NewNull | src/Microsoft.Framework.Runtime.Hosting/Json/JsonPrimitive.cs:14-17 | a null value at the given position |
| JsonPrimitive.NewBoolean | src/Microsoft.Framework.Runtime.Hosting/Json/JsonPrimitive.cs:19-36 | succeeds iff the token is True or False; the value is true iff the token is True; the position is the token's; any other kind is an argument error |
| JsonPrimitive.NewNumber | src/Microsoft.Framework.Runtime.Hosting/Json/JsonPrimitive.cs:51-75 | succeeds iff the token has text that converts; the raw text is kept unchanged next to the converted value, at the token's position; a format failure and an overflow are distinct errors at the token's line and column; a token without text is an argument-null error |
| JsonPrimitive.Int | src/Microsoft.Framework.Runtime.Hosting/Json/JsonPrimitive.cs:82-85 | `Int` is the number's double truncated toward zero: within one of it, on the side of zero |
| JsonPrimitive.Truncate | src/Microsoft.Framework.Runtime.Hosting/Json/JsonPrimitive.cs:82-85 | `(int)d` truncates toward zero: the result lies within one of `d` on the side of zero |
| JsonPrimitive.TruncateWhole | src/Microsoft.Framework.Runtime.Hosting/Json/JsonPrimitive.cs:82-85 | truncation gives back every whole number and drops only the fractional part |
| JsonPrimitive.NumberToIntExample | test/Microsoft.Framework.Runtime.Tests/JsonDeserializerFacts.cs:12-31 | a number token "123" at (1, 321) gives a number whose `Int` is 123 at (1, 321) |
| JsonBufferSpec.PeekAt | src/Microsoft.Framework.Runtime.Hosting/Json/JsonBuffer.cs:141 | `Peek` gives -1 exactly past the end, and otherwise the unit at the position |
| JsonBufferSpec.NextChar | src/Microsoft.Framework.Runtime.Hosting/Json/JsonBuffer.cs:102-134 | the unit is never LF or CR; -1 only with the cursor at the end; otherwise it is the last unit consumed; a unit that is not a line break is read in one step, one column on |
| JsonBufferSpec.NumberTail | src/Microsoft.Framework.Runtime.Hosting/Json/JsonBuffer.cs:139-154 | the cursor moves by exactly the length of the text read, on the same line |
| JsonBufferSpec.LiteralFrom | src/Microsoft.Framework.Runtime.Hosting/Json/JsonBuffer.cs:159-189 | on success, exactly the rest of the literal is consumed, on one line; both failures are deserializer errors |
| JsonBufferSpec.SimpleEscape | src/Microsoft.Framework.Runtime.Hosting/Json/JsonBuffer.cs:206-242 | a one-character escape exists exactly for `" \ / b f n r t` |
| JsonBufferSpec.IsWhitespace | src/Microsoft.Framework.Runtime.Hosting/Json/JsonBuffer.cs:296-299 | `IsWhitespace` never holds for a line feed, which `ReadNextChar` consumes itself, nor for a digit, `"` or `-`, which start tokens |
| JsonBufferSpec.HexDigit | src/Microsoft.Framework.Runtime.Hosting/Json/JsonBuffer.cs:264 | a unit is a hexadecimal digit exactly when it is `0`-`9`, `A`-`F` or `a`-`f`; its value is below 16, and a lower-case digit has the value of its upper-case form |
| JsonBufferSpec.HexValue | src/Microsoft.Framework.Runtime.Hosting/Json/JsonBuffer.cs:264-265 | four units convert exactly when all four are hexadecimal digits |
| JsonBufferSpec.UnicodeUnits | src/Microsoft.Framework.Runtime.Hosting/Json/JsonBuffer.cs:248-260 | on success, exactly the requested number of units is appended |
| JsonBufferSpec.Unescape | src/Microsoft.Framework.Runtime.Hosting/Json/JsonBuffer.cs:204-275 | an escape decodes to one code unit (below 0x10000) and never moves the cursor back; its text is fixed by `SimpleEscapeRoundTrip`, `UnicodeEscapeRoundTrip` and `UnicodeEscapeInvalid` |
| JsonBufferSpec.StringFrom | src/Microsoft.Framework.Runtime.Hosting/Json/JsonBuffer.cs:196-291 | a string that is read consumes at least its closing quotation mark; failures are deserializer errors; its text is fixed by `StringPlainRun`, `StringClosed` and `StringEscape` |
| JsonBufferSpec.LexToken | src/Microsoft.Framework.Runtime.Hosting/Json/JsonBuffer.cs:45-99 | the token is at the line and column of its first unit; it is never EOL; only strings and numbers carry text |
| JsonBufferSpec.Lex | src/Microsoft.Framework.Runtime.Hosting/Json/JsonBuffer.cs:23-43 | every token but EOL consumes input; EOL only at the end of the input; at the end, EOL one column further on |
| JsonBuffer.JsonBuffer.constructor | src/Microsoft.Framework.Runtime.Hosting/Json/JsonBuffer.cs:13-21 | a new buffer reads the reader's text from its start, at line 1, column 0 |
| JsonBuffer.JsonBuffer.Peek | src/Microsoft.Framework.Runtime.Hosting/Json/JsonBuffer.cs:141 | the unit at the cursor or -1, without reading it |
| JsonBuffer.JsonBuffer.ReaderRead | src/Microsoft.Framework.Runtime.Hosting/Json/JsonBuffer.cs:106 | the unit at the cursor or -1, advancing past it if there is one |
| JsonBuffer.JsonBuffer.ReadNextChar | src/Microsoft.Framework.Runtime.Hosting/Json/JsonBuffer.cs:102-134 | the loop returns the unit and leaves the cursor, `_line` and `_column` where `NextChar` says |
| JsonBuffer.JsonBuffer.ReadNumber | src/Microsoft.Framework.Runtime.Hosting/Json/JsonBuffer.cs:136-157 | the text is the first unit followed by `NumberTail`'s run, and the state is where the run ends |
| JsonBuffer.JsonBuffer.ReadLiteral | src/Microsoft.Framework.Runtime.Hosting/Json/JsonBuffer.cs:159-189 | success, each error and the new state are those of `LiteralFrom` from the literal's second unit |
| JsonBuffer.JsonBuffer.ReadUnicodeUnits | src/Microsoft.Framework.Runtime.Hosting/Json/JsonBuffer.cs:245-260 | the four-unit buffer and the state, or the open-string error at the `u`, are those of `UnicodeUnits` |
| JsonBuffer.JsonBuffer.ReadString | src/Microsoft.Framework.Runtime.Hosting/Json/JsonBuffer.cs:191-294 | the text, each error and the new state are those of `StringFrom` with an empty buffer, unescaped |
| JsonBuffer.JsonBuffer.Read | src/Microsoft.Framework.Runtime.Hosting/Json/JsonBuffer.cs:23-43 | the token, each error and the new state are those of `Lex`; at the end of the input the token is EOL |
| JsonBuffer.JsonBuffer.ReadToken | src/Microsoft.Framework.Runtime.Hosting/Json/JsonBuffer.cs:45-99 | the token after the first significant unit, each error and the new state are those of `LexToken` |
| JsonBufferProperties.NextCharSkipsLineBreaks | src/Microsoft.Framework.Runtime.Hosting/Json/JsonBuffer.cs:104-133 | `ReadNextChar` gives -1 iff nothing but line breaks is left; every unit it skips is a line break |
| JsonBufferProperties.NextCharTracks | src/Microsoft.Framework.Runtime.Hosting/Json/JsonBuffer.cs:106-121 | `_line`/`_column` stay equal to the position reached by the units consumed, plus one column per read at the end |
| JsonBufferProperties.FirstOfLineAtColumnOne | src/Microsoft.Framework.Runtime.Hosting/Json/JsonBuffer.cs:114-121 | the first unit of a line is at column 1 |
| JsonBufferProperties.CrLfNumbersLikeLf | src/Microsoft.Framework.Runtime.Hosting/Json/JsonBuffer.cs:123-127 | a CR before an LF changes no later line or column |
| JsonBufferProperties.LexSkipsWhitespace | src/Microsoft.Framework.Runtime.Hosting/Json/JsonBuffer.cs:28-43 | `Read` passes over SP, HT, CR and LF and lexes from the first other unit |
| JsonBufferProperties.TokenAtFirstUnit | src/Microsoft.Framework.Runtime.Hosting/Json/JsonBuffer.cs:30-32 | a token has the line and column of its first non-whitespace unit, and the cursor after it tracks the input again, so this holds for every token read from the start |
| JsonBufferProperties.EolIffOnlyWhitespace | src/Microsoft.Framework.Runtime.Hosting/Json/JsonBuffer.cs:34-38 | `Read` gives EOL exactly when nothing but whitespace is left |
| JsonBufferProperties.EolRepeats | src/Microsoft.Framework.Runtime.Hosting/Json/JsonBuffer.cs:34-38 | at the end, `Read` keeps giving EOL, one column further on each time |
| JsonBufferProperties.PunctuationToken | src/Microsoft.Framework.Runtime.Hosting/Json/JsonBuffer.cs:45-68 | each of `{ } [ ] : ,` is a token of its own kind, without text, that consumes only itself |
| JsonBufferProperties.IllegalFirstUnit | src/Microsoft.Framework.Runtime.Hosting/Json/JsonBuffer.cs:94-97 | a unit that starts no token is an illegal-character error at the token's position |
| JsonBufferProperties.NumberTailRun | src/Microsoft.Framework.Runtime.Hosting/Json/JsonBuffer.cs:139-154 | the loop reads the longest run of digits, `.`, `e` and `E`, and the unit after it is not consumed |
| JsonBufferProperties.LexTokenNumber | src/Microsoft.Framework.Runtime.Hosting/Json/JsonBuffer.cs:89-93 | a digit or `-` starts a number token at the current line and column, whose text is that unit followed by `NumberTail`'s run |
| JsonBufferProperties.LexNumberRun | src/Microsoft.Framework.Runtime.Hosting/Json/JsonBuffer.cs:89-93 | after a digit or `-`, the number token's text is that unit and the run after it |
| JsonBufferProperties.NumberToken | src/Microsoft.Framework.Runtime.Hosting/Json/JsonBuffer.cs:136-157 | a number token's text is the input from its first unit up to, not including, the first unit that is not a number unit |
| JsonBufferProperties.LiteralSpelled | src/Microsoft.Framework.Runtime.Hosting/Json/JsonBuffer.cs:161-188 | an accepted literal was spelled by the input, and the unit after it is an allowed tail |
| JsonBufferProperties.LiteralAccepted | src/Microsoft.Framework.Runtime.Hosting/Json/JsonBuffer.cs:161-188 | a spelled literal with an allowed tail is accepted, and the tail is left unread |
| JsonBufferProperties.LiteralMismatch | src/Microsoft.Framework.Runtime.Hosting/Json/JsonBuffer.cs:161-169 | the first differing unit gives an unrecognized-literal error at the line and column reached |
| JsonBufferProperties.LiteralBadTail | src/Microsoft.Framework.Runtime.Hosting/Json/JsonBuffer.cs:176-188 | a tail outside `} ] CR LF , SP HT` and the end gives an illegal-trailing-character error just after the literal |
| JsonBufferProperties.UnescapeErrors | src/Microsoft.Framework.Runtime.Hosting/Json/JsonBuffer.cs:243-275 | escape errors are at the unit after the backslash; a bad-escape error happens exactly for an unknown escape unit |
| JsonBufferProperties.UnicodeUnitsErrorAt | src/Microsoft.Framework.Runtime.Hosting/Json/JsonBuffer.cs:249-255 | the end of the input inside `\u` is an open-string error at the `u` |
| JsonBufferProperties.UnterminatedString | src/Microsoft.Framework.Runtime.Hosting/Json/JsonBuffer.cs:196-203 | a string without a closing quotation mark fails, as an open string when it has no backslash |
| JsonBufferProperties.RawLineFeedDropped | src/Microsoft.Framework.Runtime.Hosting/Json/JsonBuffer.cs:200 | a raw line feed inside a string is dropped, never rejected: the two lines "a and b" read as "ab" |
| JsonBufferProperties.SimpleEscapeRoundTrip | src/Microsoft.Framework.Runtime.Hosting/Json/JsonBuffer.cs:206-242 | each one-character escape decodes to the unit it stands for |
| JsonBufferProperties.HexChar | src/Microsoft.Framework.Runtime.Hosting/Json/JsonBuffer.cs:264 | a written hexadecimal digit reads back as its value |
| JsonBufferProperties.HexValueRoundTrip | src/Microsoft.Framework.Runtime.Hosting/Json/JsonBuffer.cs:264-265 | the four hexadecimal digits of a unit read back as that unit |
| JsonBufferProperties.UnicodeUnitsPlain | src/Microsoft.Framework.Runtime.Hosting/Json/JsonBuffer.cs:248-260 | without line breaks, the units after `\u` are read one per column, in order |
| JsonBufferProperties.UnicodeEscapeRoundTrip | src/Microsoft.Framework.Runtime.Hosting/Json/JsonBuffer.cs:243-271 | `\u` and the four digits of a unit decode to that unit, four columns on |
| JsonBufferProperties.UnicodeEscapeInvalid | src/Microsoft.Framework.Runtime.Hosting/Json/JsonBuffer.cs:262-270 | `\u` and four units that are not all hexadecimal digits give an invalid-unicode error carrying those units, at the `u` |
| JsonBufferProperties.StringPlainRun | src/Microsoft.Framework.Runtime.Hosting/Json/JsonBuffer.cs:196-291 | outside an escape, units other than `"`, `\` and line breaks are appended to the text unchanged, one column each |
| JsonBufferProperties.StringClosed | src/Microsoft.Framework.Runtime.Hosting/Json/JsonBuffer.cs:196-291 | a string's text is the units up to the first `"` when none of them is `\` or a line break; the cursor stops just past the `"` |
| JsonBufferProperties.StringEscape | src/Microsoft.Framework.Runtime.Hosting/Json/JsonBuffer.cs:204-275 | a backslash and the unit after it append exactly what `Unescape` decodes, or fail with its error |
| JsonBufferProperties.StringSimpleEscape | src/Microsoft.Framework.Runtime.Hosting/Json/JsonBuffer.cs:206-242 | `\` followed by the escape letter of a unit appends that unit |
| JsonBufferProperties.StringToken | src/Microsoft.Framework.Runtime.Hosting/Json/JsonBuffer.cs:69-73 | a string token without escapes carries exactly the units between its quotation marks |
| JsonBufferProperties.StartTracks | src/Microsoft.Framework.Runtime.Hosting/Json/JsonBuffer.cs:15-16 | a new buffer's line 1, column 0 tracks the input |
| JsonBufferProperties.NumberTailTracks | src/Microsoft.Framework.Runtime.Hosting/Json/JsonBuffer.cs:139-154 | reading a number keeps `_line`/`_column` equal to the position of the units consumed |
| JsonBufferProperties.LiteralFromTracks | src/Microsoft.Framework.Runtime.Hosting/Json/JsonBuffer.cs:161-188 | reading a literal keeps `_line`/`_column` tracking the input |
| JsonBufferProperties.UnicodeUnitsTracks | src/Microsoft.Framework.Runtime.Hosting/Json/JsonBuffer.cs:248-260 | the four reads after `\u` keep `_line`/`_column` tracking the input |
| JsonBufferProperties.StringFromTracks | src/Microsoft.Framework.Runtime.Hosting/Json/JsonBuffer.cs:196-291 | reading a string keeps `_line`/`_column` tracking the input |
| JsonBufferProperties.LexTokenTracks | src/Microsoft.Framework.Runtime.Hosting/Json/JsonBuffer.cs:45-99 | every kind of token leaves `_line`/`_column` tracking the input |
| JsonBufferProperties.LexTracks | src/Microsoft.Framework.Runtime.Hosting/Json/JsonBuffer.cs:23-100 | each `Read` keeps `_line`/`_column` tracking the input, so every later token is placed like the first |
| JsonDeserializerSpec.ParseValue | src/Microsoft.Framework.Runtime.Hosting/Json/JsonDeserializer.cs:39-77 | the result is null exactly for EOL, and then nothing is read; a value has the position of its first token |
| JsonDeserializerSpec.ParseArrayLoop | src/Microsoft.Framework.Runtime.Hosting/Json/JsonDeserializer.cs:79-108 | a read array is an array at the position of its `[`; how each round ends and fails is fixed by `ArrayLoopRound` and `ArrayElementRound` |
| JsonDeserializerSpec.ParseArrayElement | src/Microsoft.Framework.Runtime.Hosting/Json/JsonDeserializer.cs:90-104 | a round that ends well gives an array at the position of its `[`; `ArrayElementRound` fixes the closing round to exactly `items + [v]` and states both of its errors |
| JsonDeserializerSpec.ParseObjectLoop | src/Microsoft.Framework.Runtime.Hosting/Json/JsonDeserializer.cs:110-165 | a read object is an object at the position of its `{`; `ObjectLoopRound` states each of its errors, including the duplicate name, and `DuplicateNameRejected` places that error at the name's quotation mark |
| JsonDeserializerSpec.ParseMember | src/Microsoft.Framework.Runtime.Hosting/Json/JsonDeserializer.cs:144-160 | a member round that ends well gives an object at the position of its `{`; `MemberRound` fixes the closing round to exactly `members[name := v]` and states both invalid-object errors |
| JsonDeserializerSpec.DeserializeFrom | src/Microsoft.Framework.Runtime.Hosting/Json/JsonDeserializer.cs:25-37 | every failure is a deserializer error; `DeserializeFromRound` and `AdditionalTokenRejected` state the additional-token error, and `AcceptedIffOnlySpaceFollows` states acceptance |
| JsonDeserializerSpec.Deserialize | src/Microsoft.Framework.Runtime.Hosting/Json/JsonDeserializer.cs:14-23 | the result is an argument-null error exactly for a null reader |
| JsonDeserializer.JsonDeserializer.constructor | src/Microsoft.Framework.Runtime.Hosting/Json/JsonDeserializer.cs:10-12 | a deserializer starts without a buffer |
| JsonDeserializer.JsonDeserializer.Deserialize | src/Microsoft.Framework.Runtime.Hosting/Json/JsonDeserializer.cs:14-23 | the result is `JsonDeserializerSpec.Deserialize` of the reader |
| JsonDeserializer.JsonDeserializer.DeserializeBuffer | src/Microsoft.Framework.Runtime.Hosting/Json/JsonDeserializer.cs:25-37 | the result is `DeserializeFrom` at the buffer's state; an accepted input leaves the buffer at the end of the reader |
| JsonDeserializer.JsonDeserializer.DeserializeInternal | src/Microsoft.Framework.Runtime.Hosting/Json/JsonDeserializer.cs:39-77 | the value, each error and the buffer's new state are those of `ParseValue`; null only at the end of the input |
| JsonDeserializer.JsonDeserializer.DeserializeArray | src/Microsoft.Framework.Runtime.Hosting/Json/JsonDeserializer.cs:79-108 | the loop's array, each error and the new state are those of `ParseArrayLoop` with no elements yet |
| JsonDeserializer.JsonDeserializer.DeserializeArrayElement | src/Microsoft.Framework.Runtime.Hosting/Json/JsonDeserializer.cs:90-104 | one loop round after its first token: a closing `]` ends the array, a comma continues the loop, anything else fails as `ParseArrayElement` does |
| JsonDeserializer.JsonDeserializer.DeserializeObject | src/Microsoft.Framework.Runtime.Hosting/Json/JsonDeserializer.cs:110-165 | the loop's dictionary, each error and the new state are those of `ParseObjectLoop` with no members yet |
| JsonDeserializer.JsonDeserializer.DeserializeMember | src/Microsoft.Framework.Runtime.Hosting/Json/JsonDeserializer.cs:144-160 | the colon, the value stored under the new name, then `}` or `,`, as `ParseMember` says |
| JsonDeserializerProperties.AcceptedIffOnlySpaceFollows | src/Microsoft.Framework.Runtime.Hosting/Json/JsonDeserializer.cs:27-36 | an input is accepted iff a value can be read and only whitespace follows it; the result is that value |
| JsonDeserializerProperties.NullIffOnlySpace | src/Microsoft.Framework.Runtime.Hosting/Json/JsonDeserializer.cs:41-44 | an empty or whitespace-only input gives null, and no other input does |
| JsonDeserializerProperties.ParseValueTracks | src/Microsoft.Framework.Runtime.Hosting/Json/JsonDeserializer.cs:39-77 | reading any value, nested or not, keeps the buffer's `_line`/`_column` tracking the input |
| JsonDeserializerProperties.ArrayLoopTracks | src/Microsoft.Framework.Runtime.Hosting/Json/JsonDeserializer.cs:79-108 | the array loop keeps `_line`/`_column` tracking the input |
| JsonDeserializerProperties.ArrayElementTracks | src/Microsoft.Framework.Runtime.Hosting/Json/JsonDeserializer.cs:90-104 | an array round keeps `_line`/`_column` tracking the input |
| JsonDeserializerProperties.ObjectLoopTracks | src/Microsoft.Framework.Runtime.Hosting/Json/JsonDeserializer.cs:110-165 | the object loop keeps `_line`/`_column` tracking the input |
| JsonDeserializerProperties.MemberTracks | src/Microsoft.Framework.Runtime.Hosting/Json/JsonDeserializer.cs:144-160 | a member round keeps `_line`/`_column` tracking the input |
| JsonDeserializerProperties.MemberValueTracks | src/Microsoft.Framework.Runtime.Hosting/Json/JsonDeserializer.cs:150 | the value after a member's colon keeps `_line`/`_column` tracking the input |
| JsonDeserializerProperties.ValueAtFirstUnit | src/Microsoft.Framework.Runtime.Hosting/Json/JsonDeserializer.cs:39-77 | any value read from a tracked cursor, nested ones included, has the line and column of its first non-whitespace unit |
| JsonDeserializerProperties.TopLevelPosition | src/Microsoft.Framework.Runtime.Hosting/Json/JsonDeserializer.cs:56-73 | the top-level value has the line and column of the first non-whitespace unit |
| JsonDeserializerProperties.LeafValue | src/Microsoft.Framework.Runtime.Hosting/Json/JsonDeserializer.cs:56-76 | a scalar token gives the leaf of its kind, with the token's text or truth value, and reads nothing more; it fails exactly for `] } : ,`, which are unexpected-token errors at the token, and for a number that does not convert |
| JsonDeserializerProperties.ArrayLoopKeepsItems | src/Microsoft.Framework.Runtime.Hosting/Json/JsonDeserializer.cs:82-105 | the elements read so far stay, in order, at the front of the finished array |
| JsonDeserializerProperties.ArrayElementKeepsItems | src/Microsoft.Framework.Runtime.Hosting/Json/JsonDeserializer.cs:90-104 | after an element round, the elements already read are a proper prefix of the result and the next element is the value read from the round's first token; `ArrayElementRound` pins the rest |
| JsonDeserializerProperties.ArrayLoopRound | src/Microsoft.Framework.Runtime.Hosting/Json/JsonDeserializer.cs:82-88 | a `]` where an element may start closes the array with exactly the elements read so far; a read error fails the array; any other token starts an element |
| JsonDeserializerProperties.ArrayElementRound | src/Microsoft.Framework.Runtime.Hosting/Json/JsonDeserializer.cs:90-104 | after an element `v`: `]` gives exactly `items + [v]`, `,` goes on with `items + [v]`, EOL is InvalidArrayEnd and any other token InvalidArrayExpectComma, both at that token |
| JsonDeserializerProperties.ObjectLoopRound | src/Microsoft.Framework.Runtime.Hosting/Json/JsonDeserializer.cs:115-142 | EOL is InvalidObject; a colon, or a token that is neither a string nor `}`, is InvalidMemberName; a name already read is DuplicateMemberName, all at that token; `}` gives exactly the members read so far; a new name starts a member |
| JsonDeserializerProperties.MemberRound | src/Microsoft.Framework.Runtime.Hosting/Json/JsonDeserializer.cs:144-160 | a missing colon is InvalidObject at the token found; after the value `v`, `}` gives exactly `members[name := v]`, `,` goes on with that map, and any other token is InvalidObject at that token |
| JsonDeserializerProperties.DeserializeFromRound | src/Microsoft.Framework.Runtime.Hosting/Json/JsonDeserializer.cs:25-37 | after the value, EOL gives the value and any other token is AdditionalToken, carrying its text, at that token |
| JsonDeserializerProperties.ErrorAtFirstUnit | src/Microsoft.Framework.Runtime.Hosting/Json/JsonDeserializer.cs:82-160 | an error raised at a token read from a tracked cursor has the line and column of the token's first unit |
| JsonDeserializerProperties.DuplicateNameRejected | src/Microsoft.Framework.Runtime.Hosting/Json/JsonDeserializer.cs:138-142 | a name without escapes that is already a member is a DuplicateMemberName error at its opening quotation mark, whatever follows |
| JsonDeserializerProperties.ValueFromStartTracks | src/Microsoft.Framework.Runtime.Hosting/Json/JsonDeserializer.cs:27 | the value read from the start of the input leaves `_line`/`_column` tracking the input |
| JsonDeserializerProperties.AdditionalTokenRejected | src/Microsoft.Framework.Runtime.Hosting/Json/JsonDeserializer.cs:27-34 | an input whose value is followed by a unit other than whitespace is rejected, with AdditionalToken at that unit when it starts a token |
| JsonDeserializerProperties.ObjectLoopKeepsMembers | src/Microsoft.Framework.Runtime.Hosting/Json/JsonDeserializer.cs:115-162 | a member once read keeps its value in the finished object |
| JsonDeserializerProperties.MemberKeepsMembers | src/Microsoft.Framework.Runtime.Hosting/Json/JsonDeserializer.cs:138-150 | looking a new name up in the finished object gives the value that followed its colon, and earlier members keep theirs |
| JsonDeserializerExamples.EmptyArray | test/Microsoft.Framework.Runtime.Tests/JsonDeserializerFacts.cs:43-52 | `[]` gives an array with no elements |
| JsonDeserializerExamples.IntegerArray | test/Microsoft.Framework.Runtime.Tests/JsonDeserializerFacts.cs:54-76 | `[1,2,3]` gives three numbers at line 1, columns 2, 4 and 6, whose `Int` values are 1, 2 and 3 |
| JsonDeserializerExamples.StringArray | test/Microsoft.Framework.Runtime.Tests/JsonDeserializerFacts.cs:78-108 | `["a", "b", "c" ]` gives an array at (1, 1) of the strings "a", "b" and "c" at columns 2, 7 and 12 |
| JsonDeserializerExamples.ArrayTrailingComma | src/Microsoft.Framework.Runtime.Hosting/Json/JsonDeserializer.cs:84-88 | `[1,]` is accepted as an array of one number |
| JsonDeserializerExamples.UnclosedArray | src/Microsoft.Framework.Runtime.Hosting/Json/JsonDeserializer.cs:92-96 | `[1,2` is an invalid-array-end error at the column after the last unit |
| JsonDeserializerExamples.ObjectTrailingComma | src/Microsoft.Framework.Runtime.Hosting/Json/JsonDeserializer.cs:127-130 | `{"a":1,}` is accepted as an object of one member |
| JsonDeserializerExamples.DuplicateMember | src/Microsoft.Framework.Runtime.Hosting/Json/JsonDeserializer.cs:138-142 | in `{"k":1,"k":2}`, the second `"k"` is a duplicate-member-name error at its own token, before its colon is read |
| JsonDeserializerExamples.AdditionalValue | src/Microsoft.Framework.Runtime.Hosting/Json/JsonDeserializer.cs:30-34 | `1 2` is an additional-token error carrying the second token's text, at its position |

## Left out

- `TextReader`. The reader is a sequence of code units and a position. Stream I/O and reader disposal are not modelled.
- `double.Parse`. The conversion is floating point, so it is a parameter of the model. `JsonNumber.Double` is an unbounded real.
- JsonPrimitive.Int: `(int)` of a double outside the 32-bit range is not modelled. `Int` is the unbounded truncation.
- `int.Parse(..., NumberStyles.HexNumber)` also allows whitespace around the four units. Here `\u` takes exactly four ASCII hexadecimal digits.
- `char.IsDigit` also accepts non-ASCII decimal digits. Here only `0`-`9` count.
- `JsonDeserializerResource.cs` only formats messages. An error carries its kind and detail, not a message string.
- The `JsonDeserializerException` class itself is not part of this model. Neither are the inner exceptions it wraps.
- `JsonValue`, `JsonString`, `JsonArray` and `JsonObject` are not part of this model beyond their contents and position. This leaves out `ToString`, `Count`, the indexer and the `ValueAs...` accessors.
- An object's members are a `map`, so `Dictionary` enumeration order is not modelled.
- `JsonPosition.GetHashCode` uses identity hashing, which is inconsistent with `Equals`. It is left out.
- JsonDeserializer.JsonDeserializer.DeserializeArray: the source appends the element before it checks the separator after it. The model appends after the check. A failed array is discarded either way, so no result differs.
- JsonDeserializer.JsonDeserializer.DeserializeObject: the same holds for storing a member before the `}`/`,` check.
- JsonBuffer.JsonBuffer.ReadLiteral is stated for any literal without line breaks, not only for the three literal names.
- The simple-object test (JsonDeserializerFacts.cs:110-173) is not worked out. Its twelve-line input is too large to evaluate step by step. What it checks holds in general: `MemberKeepsMembers` gives each member's value, and `ValueAtFirstUnit` with the tracking lemmas (`LexTracks`, `ParseValueTracks`) gives the line and column of every value, nested ones included.
- The C# parser recurses once per nested array or object, with no depth limit, so very deep nesting can overflow its stack. The model reads nesting of any depth.
- The lock-file test reads a file from disk, and is left out.
- `DnuPackagesAddTests.cs`, `DnuCommandsTests.cs` and `BootstrapperTestUtils.cs` launch processes and touch the file system. They are not part of this model.
- `AssemblyInfo.cs` holds only attributes and is left out.
