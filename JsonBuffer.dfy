/** JsonBuffer: the lexer, a class over a reader with mutable `_line` and
    `_column` fields.  Each method is proved to do what the function of the
    same step in JsonBufferSpec says, starting from the state it was
    called in. */
module JsonBuffer {
  import opened JsonConstants
  import opened JsonPosition
  import opened JsonToken
  import opened JsonErrors
  import opened JsonBufferSpec

  class JsonBuffer {
    /** The reader's code units (`_reader`); `pos` is its cursor. */
    const input: seq<CodeUnit>
    var pos: nat
    var line: int
    var column: int

    ghost predicate Valid()
      reads this
    {
      pos <= |input|
    }

    /** The reader position and the `_line`/`_column` fields as one value. */
    function State(): Cursor
      reads this
    {
      Cursor(pos, line, column)
    }

    constructor (reader: seq<CodeUnit>)
      ensures Valid() && input == reader && State() == Start
    {
      input := reader;
      pos := 0;
      line := 1;
      column := 0;
    }

    /** `TextReader.Peek()`. */
    method Peek() returns (value: int)
      requires Valid()
      ensures value == PeekAt(input, pos)
    {
      value := if pos < |input| then input[pos] else EndOfInput;
    }

    /** `TextReader.Read()`: the unit at the cursor, or -1 at the end. */
    method ReaderRead() returns (value: int)
      requires Valid()
      modifies this`pos
      ensures Valid()
      ensures value == PeekAt(input, old(pos))
      ensures pos == if old(pos) < |input| then old(pos) + 1 else old(pos)
    {
      if pos < |input| {
        value := input[pos];
        pos := pos + 1;
      } else {
        value := EndOfInput;
      }
    }

    method ReadNextChar() returns (value: int)
      requires Valid()
      modifies this
      ensures Valid()
      ensures NextChar(input, old(State())) == CharRead(value, State())
    {
      while true
        invariant Valid()
        invariant NextChar(input, State()) == NextChar(input, old(State()))
        decreases |input| - pos
      {
        value := ReaderRead();
        column := column + 1;

        if value == EndOfInput {
          return;
        } else if value == LF {
          column := 0;
          line := line + 1;
          continue;
        } else if value == CR {
          // a carriage return takes a column and is skipped
        } else {
          return;
        }
      }
    }

    method ReadNumber(firstRead: CodeUnit) returns (raw: seq<CodeUnit>)
      requires Valid()
      modifies this
      ensures Valid()
      ensures raw == [firstRead] + NumberTail(input, old(State())).text
      ensures State() == NumberTail(input, old(State())).cursor
    {
      var buf := [firstRead];
      while true
        invariant Valid()
        invariant buf + NumberTail(input, State()).text == [firstRead] + NumberTail(input, old(State())).text
        invariant NumberTail(input, State()).cursor == NumberTail(input, old(State())).cursor
        decreases |input| - pos
      {
        var next := Peek();
        if IsNumberChar(next) {
          var u := ReadNextChar();
          buf := buf + [u as CodeUnit];
        } else {
          break;
        }
      }
      raw := buf;
    }

    method ReadLiteral(literal: seq<CodeUnit>) returns (result: Result<()>)
      requires Valid() && IsPlainText(literal) && |literal| >= 1
      modifies this
      ensures Valid()
      ensures result.Ok? ==> LiteralFrom(input, old(State()), literal, 1) == Ok(State())
      ensures result.Err? ==> LiteralFrom(input, old(State()), literal, 1) == Err(result.error)
    {
      for i := 1 to |literal|
        invariant Valid()
        invariant LiteralFrom(input, State(), literal, i) == LiteralFrom(input, old(State()), literal, 1)
      {
        var next := Peek();
        if next != literal[i] {
          return Err(JsonDeserializerError(UnrecognizedLiteral(literal), line, column));
        } else {
          var _ := ReadNextChar();
        }
      }

      var tail := Peek();
      if !IsLiteralTail(tail) {
        return Err(JsonDeserializerError(IllegalTrailingCharacter(tail, literal), line, column));
      }
      return Ok(());
    }

    /** The four units after `\u`, read into a fixed-size buffer. */
    method ReadUnicodeUnits(at: Position) returns (result: Result<seq<CodeUnit>>)
      requires Valid()
      modifies this
      ensures Valid()
      ensures result.Ok? ==> UnicodeUnits(input, old(State()), 4, [], at) == Ok(TextRead(result.value, State()))
      ensures result.Err? ==> UnicodeUnits(input, old(State()), 4, [], at) == Err(result.error)
    {
      var n := 4;
      var unicodes := new CodeUnit[n];
      ghost var read: seq<CodeUnit> := [];
      ghost var cur := State();
      for i := 0 to n
        invariant Valid() && read == unicodes[..i] && cur == State()
        invariant n == 4 && UnicodeUnits(input, cur, n - i, read, at) == UnicodeUnits(input, old(State()), n, [], at)
      {
        var next := ReadNextChar();
        if next == EndOfInput {
          return Err(JsonDeserializerError(OpenString, at.line, at.column));
        }
        assert UnicodeUnits(input, cur, n - i, read, at)
               == UnicodeUnits(input, State(), n - (i + 1), read + [next as CodeUnit], at);
        cur := State();
        read := read + [next as CodeUnit];
        unicodes[i] := next as CodeUnit;
      }
      assert unicodes[..] == read;
      return Ok(unicodes[..]);
    }

    method ReadString() returns (result: Result<seq<CodeUnit>>)
      requires Valid()
      modifies this
      ensures Valid()
      ensures result.Ok? ==> StringFrom(input, old(State()), [], false) == Ok(TextRead(result.value, State()))
      ensures result.Err? ==> StringFrom(input, old(State()), [], false) == Err(result.error)
    {
      var buf: seq<CodeUnit> := [];
      var escaped := false;

      while true
        invariant Valid()
        invariant StringFrom(input, State(), buf, escaped) == StringFrom(input, old(State()), [], false)
        decreases |input| - pos
      {
        var next := ReadNextChar();

        if next == EndOfInput || next == LF {
          return Err(JsonDeserializerError(OpenString, line, column));
        } else if escaped {
          var simple := SimpleEscape(next);
          if simple.Some? {
            buf := buf + [simple.value];
          } else if next == 0x75 {  // 'u'
            var unicodeLine, unicodeColumn := line, column;
            var hex := ReadUnicodeUnits(Position(unicodeLine, unicodeColumn));
            if hex.Err? {
              return Err(hex.error);
            }
            var unicodeValue := HexValue(hex.value);
            if unicodeValue.None? {
              return Err(JsonDeserializerError(InvalidUnicode(hex.value), unicodeLine, unicodeColumn));
            }
            buf := buf + [unicodeValue.value];
          } else {
            return Err(JsonDeserializerError(BadEscape, line, column));
          }
          escaped := false;
        } else if next == ReverseSolidus {
          escaped := true;
        } else if next == Quotation {
          break;
        } else {
          buf := buf + [next as CodeUnit];
        }
      }

      return Ok(buf);
    }

    method Read() returns (result: Result<Token>)
      requires Valid()
      modifies this
      ensures Valid()
      ensures result.Ok? ==> Lex(input, old(State())) == Ok(Lexed(result.value, State()))
      ensures result.Err? ==> Lex(input, old(State())) == Err(result.error)
      ensures old(pos) == |input| ==> result.Ok? && result.value.tokenType == EOL
    {
      var first: int;
      while true
        invariant Valid()
        invariant Lex(input, State()) == Lex(input, old(State()))
        decreases |input| - pos
      {
        first := ReadNextChar();
        if first == EndOfInput {
          return Ok(Token(EOL, None, line, column));
        } else if !IsWhitespace(first) {
          break;
        }
      }

      result := ReadToken(first);
    }

    /** The part of `Read` after the first significant unit was read. */
    method ReadToken(first: int) returns (result: Result<Token>)
      requires Valid() && 0 < pos
      modifies this
      ensures Valid()
      ensures result.Ok? ==> LexToken(input, old(State()), first) == Ok(Lexed(result.value, State()))
      ensures result.Err? ==> LexToken(input, old(State()), first) == Err(result.error)
    {
      LiteralNamesArePlain();
      var tokenLine, tokenColumn := line, column;
      if first == JsonConstants.LeftCurlyBracket {
        result := Ok(Token(TokenType.LeftCurlyBracket, None, tokenLine, tokenColumn));
      } else if first == JsonConstants.RightCurlyBracket {
        result := Ok(Token(TokenType.RightCurlyBracket, None, tokenLine, tokenColumn));
      } else if first == JsonConstants.LeftSquareBracket {
        result := Ok(Token(TokenType.LeftSquareBracket, None, tokenLine, tokenColumn));
      } else if first == JsonConstants.RightSquareBracket {
        result := Ok(Token(TokenType.RightSquareBracket, None, tokenLine, tokenColumn));
      } else if first == JsonConstants.Colon {
        result := Ok(Token(TokenType.Colon, None, tokenLine, tokenColumn));
      } else if first == JsonConstants.Comma {
        result := Ok(Token(TokenType.Comma, None, tokenLine, tokenColumn));
      } else if first == Quotation {
        var str := ReadString();
        if str.Err? {
          return Err(str.error);
        }
        result := Ok(Token(TokenType.String, Some(str.value), tokenLine, tokenColumn));
      } else if first == 0x74 {  // 't'
        var lit := ReadLiteral(ValueTrue);
        if lit.Err? {
          return Err(lit.error);
        }
        result := Ok(Token(TokenType.True, None, tokenLine, tokenColumn));
      } else if first == 0x66 {  // 'f'
        var lit := ReadLiteral(ValueFalse);
        if lit.Err? {
          return Err(lit.error);
        }
        result := Ok(Token(TokenType.False, None, tokenLine, tokenColumn));
      } else if first == 0x6E {  // 'n'
        var lit := ReadLiteral(ValueNull);
        if lit.Err? {
          return Err(lit.error);
        }
        result := Ok(Token(TokenType.Null, None, tokenLine, tokenColumn));
      } else if IsDigit(first) || first == Minus {
        var raw := ReadNumber(first as CodeUnit);
        result := Ok(Token(TokenType.Number, Some(raw), tokenLine, tokenColumn));
      } else {
        result := Err(JsonDeserializerError(IllegalCharacter(first), tokenLine, tokenColumn));
      }
    }
  }
}
