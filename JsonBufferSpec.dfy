/** The lexer of JsonBuffer.cs as functions of the input and a cursor.

    The reader is a sequence of UTF-16 code units and a position in it:
    `Peek` is the unit at the position or -1 past the end, `Read` is the
    same and then advances.  `Cursor` holds that position together with
    the lexer's `_line` and `_column` fields.  The class `JsonBuffer` in
    module JsonBuffer runs the same steps with loops and mutable fields and
    is proved to agree with these functions. */
module JsonBufferSpec {
  import opened JsonConstants
  import opened JsonPosition
  import opened JsonToken
  import opened JsonErrors

  /** Reader position plus the `_line`/`_column` fields. */
  datatype Cursor = Cursor(pos: nat, line: int, column: int)

  /** A new JsonBuffer: nothing read, line 1, column 0. */
  const Start: Cursor := Cursor(0, 1, 0)

  /** A unit read by `ReadNextChar` (-1 at end of input) and the cursor after it. */
  datatype CharRead = CharRead(unit: int, cursor: Cursor)

  /** Text gathered by the lexer and the cursor after it. */
  datatype TextRead = TextRead(text: seq<CodeUnit>, cursor: Cursor)

  /** A token and the cursor after it. */
  datatype Lexed = Lexed(token: Token, cursor: Cursor)

  /** `TextReader.Peek()` at `pos`. */
  function PeekAt(s: seq<CodeUnit>, pos: nat): (r: int)
    ensures r == EndOfInput <==> pos >= |s|
    ensures pos < |s| ==> r == s[pos]
  {
    if pos < |s| then s[pos] else EndOfInput
  }

  predicate IsLineBreak(u: int) {
    u == LF || u == CR
  }

  /** `JsonBuffer.IsWhitespace`. */
  predicate IsWhitespace(value: int)
    ensures IsWhitespace(value) ==> !IsDigit(value) && value != LF && value != Quotation && value != Minus
  {
    value == SP || value == HT || value == CR
  }

  // ---------------------------------------------------------------------
  // Line and column bookkeeping

  /** How one consumed unit moves (line, column): LF starts a new line at
      column 0, every other unit (CR included) takes one column. */
  function Advance(p: Position, u: CodeUnit): Position {
    if u == LF then Position(p.line + 1, 0) else Position(p.line, p.column + 1)
  }

  /** The (line, column) reached after consuming `units` from `p`. */
  function PositionAfter(p: Position, units: seq<CodeUnit>): Position
    decreases |units|
  {
    if units == [] then p else PositionAfter(Advance(p, units[0]), units[1..])
  }

  /** The cursor's line and column are those reached by consuming the
      input up to its position from (1, 0), except that every read at the
      end of the input adds one more column. */
  ghost predicate Tracks(s: seq<CodeUnit>, c: Cursor) {
    && c.pos <= |s|
    && var p := PositionAfter(Position(1, 0), s[..c.pos]);
    && c.line == p.line
    && c.column >= p.column
    && (c.column > p.column ==> c.pos == |s|)
  }

  // ---------------------------------------------------------------------
  // ReadNextChar

  /** `ReadNextChar`: read units, skipping LF (new line) and CR (one
      column), and return the first other unit, or -1 at the end. */
  function NextChar(s: seq<CodeUnit>, c: Cursor): (r: CharRead)
    requires c.pos <= |s|
    ensures c.pos <= r.cursor.pos <= |s|
    ensures r.unit == EndOfInput || (0 <= r.unit < 0x1_0000 && !IsLineBreak(r.unit))
    ensures r.unit == EndOfInput ==> r.cursor.pos == |s|
    ensures r.unit != EndOfInput ==> c.pos < r.cursor.pos && s[r.cursor.pos - 1] == r.unit
    ensures c.pos < |s| && !IsLineBreak(s[c.pos]) ==>
              r == CharRead(s[c.pos], Cursor(c.pos + 1, c.line, c.column + 1))
    decreases |s| - c.pos
  {
    if c.pos == |s| then
      CharRead(EndOfInput, c.(column := c.column + 1))
    else if s[c.pos] == LF then
      NextChar(s, Cursor(c.pos + 1, c.line + 1, 0))
    else if s[c.pos] == CR then
      NextChar(s, Cursor(c.pos + 1, c.line, c.column + 1))
    else
      CharRead(s[c.pos], Cursor(c.pos + 1, c.line, c.column + 1))
  }

  // ---------------------------------------------------------------------
  // ReadNumber

  /** The units `ReadNumber` accepts after the first one. */
  predicate IsNumberChar(u: int) {
    IsDigit(u) || u == FullStop || u == UpperE || u == LowerE
  }

  /** The loop of `ReadNumber`: while the peeked unit is a digit, '.', 'e'
      or 'E', read it.  The result is the maximal such run starting at the
      cursor; the unit after it is peeked, not consumed. */
  function NumberTail(s: seq<CodeUnit>, c: Cursor): (r: TextRead)
    requires c.pos <= |s|
    ensures r.cursor == Cursor(c.pos + |r.text|, c.line, c.column + |r.text|)
    ensures r.cursor.pos <= |s|
    decreases |s| - c.pos
  {
    if IsNumberChar(PeekAt(s, c.pos)) then
      var n := NextChar(s, c);
      var rest := NumberTail(s, n.cursor);
      TextRead([n.unit as CodeUnit] + rest.text, rest.cursor)
    else
      TextRead([], c)
  }

  // ---------------------------------------------------------------------
  // ReadLiteral

  /** A literal that `ReadNextChar` reads unit by unit: it holds no line
      break, which `ReadNextChar` would skip.  The three literal names are
      such literals. */
  predicate IsPlainText(literal: seq<CodeUnit>) {
    forall j :: 0 <= j < |literal| ==> !IsLineBreak(literal[j])
  }

  lemma LiteralNamesArePlain()
    ensures IsPlainText(ValueTrue) && IsPlainText(ValueFalse) && IsPlainText(ValueNull)
  {
  }

  /** The units `ReadLiteral` accepts after a literal name. */
  predicate IsLiteralTail(tail: int) {
    tail == JsonConstants.RightCurlyBracket || tail == JsonConstants.RightSquareBracket || tail == CR || tail == LF
    || tail == JsonConstants.Comma || tail == EndOfInput || IsWhitespace(tail)
  }

  /** `ReadLiteral` from index `i` of the literal on: each remaining unit
      must be the one peeked, and then the peeked tail must end the literal.
      Both errors carry the current line and column. */
  function LiteralFrom(s: seq<CodeUnit>, c: Cursor, literal: seq<CodeUnit>, i: nat): (r: Result<Cursor>)
    requires c.pos <= |s| && IsPlainText(literal) && 1 <= i <= |literal|
    ensures r.Ok? ==> r.value == Cursor(c.pos + |literal| - i, c.line, c.column + |literal| - i)
    ensures r.Ok? ==> r.value.pos <= |s|
    ensures r.Err? ==> r.error.JsonDeserializerError?
    decreases |literal| - i
  {
    if i < |literal| then
      if PeekAt(s, c.pos) != literal[i] then
        Err(JsonDeserializerError(UnrecognizedLiteral(literal), c.line, c.column))
      else
        LiteralFrom(s, NextChar(s, c).cursor, literal, i + 1)
    else
      var tail := PeekAt(s, c.pos);
      if !IsLiteralTail(tail) then
        Err(JsonDeserializerError(IllegalTrailingCharacter(tail, literal), c.line, c.column))
      else
        Ok(c)
  }

  // ---------------------------------------------------------------------
  // ReadString

  /** The unit a one-character escape stands for: `\" \\ \/ \b \f \n \r \t`. */
  function SimpleEscape(e: int): (r: Option<CodeUnit>)
    ensures r.Some? <==> e in {Quotation, ReverseSolidus, Solidus, 0x62, 0x66, 0x6E, 0x72, 0x74}
  {
    if e == Quotation then Some(Quotation)
    else if e == ReverseSolidus then Some(ReverseSolidus)
    else if e == Solidus then Some(Solidus)
    else if e == 0x62 then Some(BACKSPACE)  // 'b'
    else if e == 0x66 then Some(FF)         // 'f'
    else if e == 0x6E then Some(LF)         // 'n'
    else if e == 0x72 then Some(CR)         // 'r'
    else if e == 0x74 then Some(HT)         // 't'
    else None
  }

  /** The value of one ASCII hexadecimal digit. */
  function HexDigit(u: CodeUnit): (r: Option<nat>)
    ensures r.Some? <==> IsDigit(u) || 0x41 <= u <= 0x46 || 0x61 <= u <= 0x66
    ensures r.Some? ==> r.value < 16
    ensures 0x61 <= u <= 0x66 ==> r == HexDigit(u - 0x20)
  {
    if 0x30 <= u <= 0x39 then Some(u - 0x30)
    else if 0x41 <= u <= 0x46 then Some(u - 0x41 + 10)
    else if 0x61 <= u <= 0x66 then Some(u - 0x61 + 10)
    else None
  }

  /** Four hexadecimal digits as one code unit, or None when one of them is
      not a hexadecimal digit. */
  function HexValue(hex: seq<CodeUnit>): (r: Option<CodeUnit>)
    requires |hex| == 4
    ensures r.None? <==> exists j :: 0 <= j < 4 && HexDigit(hex[j]).None?
  {
    var d0, d1, d2, d3 := HexDigit(hex[0]), HexDigit(hex[1]), HexDigit(hex[2]), HexDigit(hex[3]);
    if d0.Some? && d1.Some? && d2.Some? && d3.Some? then
      Some(((d0.value * 16 + d1.value) * 16 + d2.value) * 16 + d3.value)
    else
      None
  }

  /** The four reads after `\u`: `left` more units appended to `acc`; the
      end of input is an open-string error at `at`, the position of the `u`. */
  function UnicodeUnits(s: seq<CodeUnit>, c: Cursor, left: nat, acc: seq<CodeUnit>, at: Position): (r: Result<TextRead>)
    requires c.pos <= |s|
    ensures r.Ok? ==> c.pos <= r.value.cursor.pos <= |s| && |r.value.text| == |acc| + left
    ensures r.Err? ==> r.error.JsonDeserializerError?
    decreases left
  {
    if left == 0 then
      Ok(TextRead(acc, c))
    else
      var n := NextChar(s, c);
      if n.unit == EndOfInput then
        Err(JsonDeserializerError(OpenString, at.line, at.column))
      else
        UnicodeUnits(s, n.cursor, left - 1, acc + [n.unit as CodeUnit], at)
  }

  /** The unit an escape stands for, read after a backslash: `e` is the
      unit after the backslash and `c` the cursor just past it.  A `\u`
      reads four more units, and both of its errors carry the position of
      the `u`; any other unknown escape is a bad-escape error. */
  function Unescape(s: seq<CodeUnit>, c: Cursor, e: CodeUnit): (r: Result<CharRead>)
    requires c.pos <= |s|
    ensures r.Ok? ==> c.pos <= r.value.cursor.pos <= |s| && 0 <= r.value.unit < 0x1_0000
    ensures r.Err? ==> r.error.JsonDeserializerError?
  {
    if SimpleEscape(e).Some? then
      Ok(CharRead(SimpleEscape(e).value, c))
    else if e == 0x75 then  // 'u'
      var hex :- UnicodeUnits(s, c, 4, [], Position(c.line, c.column));
      var value := HexValue(hex.text);
      if value.None? then
        Err(JsonDeserializerError(InvalidUnicode(hex.text), c.line, c.column))
      else
        Ok(CharRead(value.value, hex.cursor))
    else
      Err(JsonDeserializerError(BadEscape, c.line, c.column))
  }

  /** The loop of `ReadString` with the text `buf` gathered so far and the
      `escaped` flag: runs to the first unescaped quotation mark. */
  function StringFrom(s: seq<CodeUnit>, c: Cursor, buf: seq<CodeUnit>, escaped: bool): (r: Result<TextRead>)
    requires c.pos <= |s|
    ensures r.Ok? ==> c.pos < r.value.cursor.pos <= |s|
    ensures r.Err? ==> r.error.JsonDeserializerError?
    decreases |s| - c.pos
  {
    var n := NextChar(s, c);
    if n.unit == EndOfInput || n.unit == LF then
      Err(JsonDeserializerError(OpenString, n.cursor.line, n.cursor.column))
    else if escaped then
      var d :- Unescape(s, n.cursor, n.unit);
      StringFrom(s, d.cursor, buf + [d.unit as CodeUnit], false)
    else if n.unit == ReverseSolidus then
      StringFrom(s, n.cursor, buf, true)
    else if n.unit == Quotation then
      Ok(TextRead(buf, n.cursor))
    else
      StringFrom(s, n.cursor, buf + [n.unit as CodeUnit], false)
  }

  // ---------------------------------------------------------------------
  // Read

  /** Whether a token of this kind carries text. */
  predicate HasText(t: TokenType) {
    t == String || t == Number
  }

  /** The part of `Read` after the first significant unit `first` was read
      and the cursor `c` is just past it: the token starts at `c`'s line
      and column. */
  function LexToken(s: seq<CodeUnit>, c: Cursor, first: int): (r: Result<Lexed>)
    requires 0 < c.pos <= |s|
    ensures r.Ok? ==> c.pos <= r.value.cursor.pos <= |s|
    ensures r.Ok? ==> r.value.token.line == c.line && r.value.token.column == c.column
    ensures r.Ok? ==> r.value.token.tokenType != EOL
    ensures r.Ok? ==> (r.value.token.value.Some? <==> HasText(r.value.token.tokenType))
    ensures r.Err? ==> r.error.JsonDeserializerError?
  {
    if first == JsonConstants.LeftCurlyBracket then Ok(Lexed(Token(TokenType.LeftCurlyBracket, None, c.line, c.column), c))
    else if first == JsonConstants.RightCurlyBracket then Ok(Lexed(Token(TokenType.RightCurlyBracket, None, c.line, c.column), c))
    else if first == JsonConstants.LeftSquareBracket then Ok(Lexed(Token(TokenType.LeftSquareBracket, None, c.line, c.column), c))
    else if first == JsonConstants.RightSquareBracket then Ok(Lexed(Token(TokenType.RightSquareBracket, None, c.line, c.column), c))
    else if first == JsonConstants.Colon then Ok(Lexed(Token(TokenType.Colon, None, c.line, c.column), c))
    else if first == JsonConstants.Comma then Ok(Lexed(Token(TokenType.Comma, None, c.line, c.column), c))
    else if first == Quotation then
      var str :- StringFrom(s, c, [], false);
      Ok(Lexed(Token(TokenType.String, Some(str.text), c.line, c.column), str.cursor))
    else if first == 0x74 then  // 't'
      var c1 :- LiteralFrom(s, c, ValueTrue, 1);
      Ok(Lexed(Token(TokenType.True, None, c.line, c.column), c1))
    else if first == 0x66 then  // 'f'
      var c1 :- LiteralFrom(s, c, ValueFalse, 1);
      Ok(Lexed(Token(TokenType.False, None, c.line, c.column), c1))
    else if first == 0x6E then  // 'n'
      var c1 :- LiteralFrom(s, c, ValueNull, 1);
      Ok(Lexed(Token(TokenType.Null, None, c.line, c.column), c1))
    else if IsDigit(first) || first == Minus then
      var tail := NumberTail(s, c);
      Ok(Lexed(Token(TokenType.Number, Some([first as CodeUnit] + tail.text), c.line, c.column), tail.cursor))
    else
      Err(JsonDeserializerError(IllegalCharacter(first), c.line, c.column))
  }

  /** `JsonBuffer.Read`: skip whitespace, then produce one token whose line
      and column are those after its first unit; at the end of the input,
      an EOL token. */
  function Lex(s: seq<CodeUnit>, c: Cursor): (r: Result<Lexed>)
    requires c.pos <= |s|
    ensures r.Ok? ==> c.pos <= r.value.cursor.pos <= |s|
    ensures r.Ok? && r.value.token.tokenType != EOL ==> c.pos < r.value.cursor.pos
    ensures r.Ok? && r.value.token.tokenType == EOL ==> r.value.cursor.pos == |s|
    ensures r.Ok? ==> (r.value.token.value.Some? <==> HasText(r.value.token.tokenType))
    ensures r.Err? ==> r.error.JsonDeserializerError?
    ensures c.pos == |s| ==>
              r == Ok(Lexed(Token(EOL, None, c.line, c.column + 1), c.(column := c.column + 1)))
    decreases |s| - c.pos
  {
    var n := NextChar(s, c);
    if n.unit == EndOfInput then
      Ok(Lexed(Token(EOL, None, n.cursor.line, n.cursor.column), n.cursor))
    else if IsWhitespace(n.unit) then
      Lex(s, n.cursor)
    else
      LexToken(s, n.cursor, n.unit)
  }
}
