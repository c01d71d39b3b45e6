/** What the lexer of JsonBuffer.cs guarantees: line and column
    bookkeeping, whitespace skipping, the shape of each token, and that
    string escapes decode what a JSON escaper writes. */
module JsonBufferProperties {
  import opened JsonConstants
  import opened JsonPosition
  import opened JsonToken
  import opened JsonErrors
  import opened JsonBufferSpec

  // ---------------------------------------------------------------------
  // Line and column bookkeeping

  /** The cursor at input position `n` whose line and column are those
      reached by consuming `s[..n]`. */
  function TrackedCursor(s: seq<CodeUnit>, n: nat): (c: Cursor)
    requires n <= |s|
    ensures c.pos == n
  {
    var p := PositionAfter(Position(1, 0), s[..n]);
    Cursor(n, p.line, p.column)
  }

  lemma {:induction false} PositionAfterSnoc(p: Position, a: seq<CodeUnit>, u: CodeUnit)
    ensures PositionAfter(p, a + [u]) == Advance(PositionAfter(p, a), u)
    decreases |a|
  {
    if a == [] {
      assert a + [u] == [u];
    } else {
      assert (a + [u])[1..] == a[1..] + [u];
      PositionAfterSnoc(Advance(p, a[0]), a[1..], u);
    }
  }

  lemma {:induction false} PositionAfterConcat(p: Position, a: seq<CodeUnit>, b: seq<CodeUnit>)
    ensures PositionAfter(p, a + b) == PositionAfter(PositionAfter(p, a), b)
    decreases |a|
  {
    if a != [] {
      assert (a + b)[1..] == a[1..] + b;
      PositionAfterConcat(Advance(p, a[0]), a[1..], b);
    } else {
      assert a + b == b;
    }
  }

  /** One step of the tracked cursor. */
  lemma TrackedStep(s: seq<CodeUnit>, n: nat)
    requires n < |s|
    ensures TrackedCursor(s, n + 1).line == Advance(PositionAfter(Position(1, 0), s[..n]), s[n]).line
    ensures TrackedCursor(s, n + 1).column == Advance(PositionAfter(Position(1, 0), s[..n]), s[n]).column
  {
    assert s[..n + 1] == s[..n] + [s[n]];
    PositionAfterSnoc(Position(1, 0), s[..n], s[n]);
  }

  /** `ReadNextChar` passes over line breaks only: it gives -1 exactly
      when nothing but line breaks is left, and otherwise every unit it
      skipped before the one it returns is a line break. */
  lemma {:induction false} NextCharSkipsLineBreaks(s: seq<CodeUnit>, c: Cursor)
    requires c.pos <= |s|
    ensures NextChar(s, c).unit == EndOfInput <==> forall i :: c.pos <= i < |s| ==> IsLineBreak(s[i])
    ensures NextChar(s, c).unit != EndOfInput ==>
              forall i :: c.pos <= i < NextChar(s, c).cursor.pos - 1 ==> IsLineBreak(s[i])
    decreases |s| - c.pos
  {
    if c.pos < |s| && IsLineBreak(s[c.pos]) {
      var next := if s[c.pos] == LF then Cursor(c.pos + 1, c.line + 1, 0) else Cursor(c.pos + 1, c.line, c.column + 1);
      assert NextChar(s, c) == NextChar(s, next);
      NextCharSkipsLineBreaks(s, next);
    }
  }

  /** `ReadNextChar` keeps `_line`/`_column` equal to the position reached
      by the units consumed: every read adds a column, an LF instead
      starts the next line at column 0, and each read at the end of the
      input adds a column more. */
  lemma {:induction false} NextCharTracks(s: seq<CodeUnit>, c: Cursor)
    requires Tracks(s, c)
    ensures Tracks(s, NextChar(s, c).cursor)
    ensures NextChar(s, c).unit != EndOfInput ==>
              NextChar(s, c).cursor == TrackedCursor(s, NextChar(s, c).cursor.pos)
    ensures NextChar(s, c).unit == EndOfInput && c.pos == |s| ==>
              NextChar(s, c).cursor == c.(column := c.column + 1)
    decreases |s| - c.pos
  {
    if c.pos < |s| {
      TrackedStep(s, c.pos);
      var next := TrackedCursor(s, c.pos + 1);
      if s[c.pos] == LF {
        assert NextChar(s, c) == NextChar(s, next);
        NextCharTracks(s, next);
      } else if s[c.pos] == CR {
        assert NextChar(s, c) == NextChar(s, next);
        NextCharTracks(s, next);
      }
    }
  }

  /** The first unit of a line is at column 1. */
  lemma FirstOfLineAtColumnOne(s: seq<CodeUnit>, k: nat)
    requires k < |s| && s[k] != LF
    requires k == 0 || s[k - 1] == LF
    ensures TrackedCursor(s, k + 1).column == 1
  {
    TrackedStep(s, k);
    if k > 0 {
      TrackedStep(s, k - 1);
      assert s[..k][..k - 1] == s[..k - 1];
    }
  }

  /** A CR before an LF changes no position: CRLF and LF line endings
      number every later unit the same. */
  lemma CrLfNumbersLikeLf(p: Position, a: seq<CodeUnit>, b: seq<CodeUnit>)
    ensures PositionAfter(p, a + [CR, LF] + b) == PositionAfter(p, a + [LF] + b)
  {
    PositionAfterConcat(p, a + [CR, LF], b);
    PositionAfterConcat(p, a + [LF], b);
    PositionAfterConcat(p, a, [CR, LF]);
    PositionAfterConcat(p, a, [LF]);
  }

  // ---------------------------------------------------------------------
  // Read: whitespace and token positions

  /** Units `Read` passes over between tokens: SP, HT and CR by
      `IsWhitespace`, and LF inside `ReadNextChar`. */
  predicate IsSpace(u: int) {
    u == SP || u == HT || u == CR || u == LF
  }

  /** `Read` skips whitespace: from a tracked cursor, the token is that of
      the first significant unit `s[k]`, lexed from the cursor just past
      it. */
  lemma {:induction false} LexSkipsWhitespace(s: seq<CodeUnit>, c: Cursor, k: nat)
    requires Tracks(s, c) && c.pos <= k < |s| && !IsSpace(s[k])
    requires forall i :: c.pos <= i < k ==> IsSpace(s[i])
    ensures Lex(s, c) == LexToken(s, TrackedCursor(s, k + 1), s[k])
    decreases k - c.pos
  {
    TrackedStep(s, c.pos);
    var next := TrackedCursor(s, c.pos + 1);
    if c.pos < k {
      if IsLineBreak(s[c.pos]) {
        assert NextChar(s, c) == NextChar(s, next);
      } else {
        assert NextChar(s, c) == CharRead(s[c.pos], next);
      }
      LexSkipsWhitespace(s, next, k);
    }
  }

  /** A token's line and column are those of its first unit, and the
      cursor after it tracks the input again (see LexTracks), so this
      holds for every token read from `Start` on. */
  lemma TokenAtFirstUnit(s: seq<CodeUnit>, c: Cursor, k: nat)
    requires Tracks(s, c) && c.pos <= k < |s| && !IsSpace(s[k])
    requires forall i :: c.pos <= i < k ==> IsSpace(s[i])
    ensures Lex(s, c).Ok? ==>
              && Lex(s, c).value.token.tokenType != EOL
              && Lex(s, c).value.token.line == PositionAfter(Position(1, 0), s[..k + 1]).line
              && Lex(s, c).value.token.column == PositionAfter(Position(1, 0), s[..k + 1]).column
              && Tracks(s, Lex(s, c).value.cursor)
  {
    LexSkipsWhitespace(s, c, k);
    LexTracks(s, c);
  }

  /** `Read` yields EOL exactly when nothing but whitespace is left. */
  lemma {:induction false} EolIffOnlyWhitespace(s: seq<CodeUnit>, c: Cursor)
    requires c.pos <= |s|
    ensures (Lex(s, c).Ok? && Lex(s, c).value.token.tokenType == EOL)
            <==> forall i :: c.pos <= i < |s| ==> IsSpace(s[i])
    decreases |s| - c.pos
  {
    var n := NextChar(s, c);
    NextCharSkipsLineBreaks(s, c);
    if n.unit != EndOfInput && IsWhitespace(n.unit) {
      EolIffOnlyWhitespace(s, n.cursor);
      if forall i :: n.cursor.pos <= i < |s| ==> IsSpace(s[i]) {
        forall i | c.pos <= i < |s| ensures IsSpace(s[i]) {
          if i < n.cursor.pos - 1 {
            assert IsLineBreak(s[i]);
          }
        }
      }
    }
  }

  /** The token kind for the six punctuation units. */
  function PunctuationType(u: int): Option<TokenType> {
    if u == JsonConstants.LeftCurlyBracket then Some(TokenType.LeftCurlyBracket)
    else if u == JsonConstants.RightCurlyBracket then Some(TokenType.RightCurlyBracket)
    else if u == JsonConstants.LeftSquareBracket then Some(TokenType.LeftSquareBracket)
    else if u == JsonConstants.RightSquareBracket then Some(TokenType.RightSquareBracket)
    else if u == JsonConstants.Colon then Some(TokenType.Colon)
    else if u == JsonConstants.Comma then Some(TokenType.Comma)
    else None
  }

  /** Each of `{ } [ ] : ,` is a token of its own kind, with no text, that
      consumes only itself. */
  lemma PunctuationToken(s: seq<CodeUnit>, c: Cursor, k: nat)
    requires Tracks(s, c) && c.pos <= k < |s| && PunctuationType(s[k]).Some?
    requires forall i :: c.pos <= i < k ==> IsSpace(s[i])
    ensures var t := TrackedCursor(s, k + 1);
            Lex(s, c) == Ok(Lexed(Token(PunctuationType(s[k]).value, None, t.line, t.column), t))
  {
    LexSkipsWhitespace(s, c, k);
  }

  /** A unit that cannot start a token is an illegal-character error at
      the token's position. */
  lemma IllegalFirstUnit(s: seq<CodeUnit>, c: Cursor, k: nat)
    requires Tracks(s, c) && c.pos <= k < |s| && !IsSpace(s[k])
    requires forall i :: c.pos <= i < k ==> IsSpace(s[i])
    requires PunctuationType(s[k]).None? && s[k] != Quotation
    requires s[k] !in {0x74, 0x66, 0x6E} && !IsDigit(s[k]) && s[k] != Minus
    ensures var t := TrackedCursor(s, k + 1);
            Lex(s, c) == Err(JsonDeserializerError(IllegalCharacter(s[k]), t.line, t.column))
  {
    LexSkipsWhitespace(s, c, k);
  }

  /** The loop of `ReadNumber` reads the longest run of digits, '.', 'e'
      and 'E' at the cursor, and stops before the unit after it. */
  lemma {:induction false} NumberTailRun(s: seq<CodeUnit>, c: Cursor)
    requires c.pos <= |s|
    ensures var r := NumberTail(s, c);
            && r.text == s[c.pos..r.cursor.pos]
            && (forall i :: c.pos <= i < r.cursor.pos ==> IsNumberChar(s[i]))
            && !IsNumberChar(PeekAt(s, r.cursor.pos))
    decreases |s| - c.pos
  {
    if IsNumberChar(PeekAt(s, c.pos)) {
      var next := Cursor(c.pos + 1, c.line, c.column + 1);
      assert NextChar(s, c) == CharRead(s[c.pos], next);
      NumberTailRun(s, next);
      var rest := NumberTail(s, next);
      assert NumberTail(s, c) == TextRead([s[c.pos]] + rest.text, rest.cursor);
      assert [s[c.pos]] + s[next.pos..rest.cursor.pos] == s[c.pos..rest.cursor.pos];
    }
  }

  /** A digit or a minus sign starts a number token whose text runs on
      with the number units after it. */
  lemma LexTokenNumber(s: seq<CodeUnit>, c: Cursor, first: CodeUnit)
    requires 0 < c.pos <= |s| && (IsDigit(first) || first == Minus)
    ensures var tail := NumberTail(s, c);
            LexToken(s, c, first) == Ok(Lexed(Token(Number, Some([first] + tail.text), c.line, c.column), tail.cursor))
  {
  }

  /** Once its first unit is read, a number token takes the run of number
      units after it. */
  lemma LexNumberRun(s: seq<CodeUnit>, d: Cursor)
    requires 0 < d.pos <= |s| && (IsDigit(s[d.pos - 1]) || s[d.pos - 1] == Minus)
    ensures var r := LexToken(s, d, s[d.pos - 1]);
            && r.Ok? && r.value.token.tokenType == Number
            && d.pos <= r.value.cursor.pos <= |s|
            && r.value.token.value == Some(s[d.pos - 1..r.value.cursor.pos])
            && (forall i :: d.pos <= i < r.value.cursor.pos ==> IsNumberChar(s[i]))
            && !IsNumberChar(PeekAt(s, r.value.cursor.pos))
  {
    var first := s[d.pos - 1];
    var tail := NumberTail(s, d);
    NumberTailRun(s, d);
    LexTokenNumber(s, d, first);
    assert [first] + tail.text == s[d.pos - 1..tail.cursor.pos];
  }

  /** A number token's text is its first unit followed by the longest run
      of digits, '.', 'e' and 'E'; the unit after the run is not consumed. */
  lemma NumberToken(s: seq<CodeUnit>, c: Cursor, k: nat)
    requires Tracks(s, c) && c.pos <= k < |s| && (IsDigit(s[k]) || s[k] == Minus)
    requires forall i :: c.pos <= i < k ==> IsSpace(s[i])
    ensures Lex(s, c).Ok?
    ensures var r := Lex(s, c).value;
            && r.token.tokenType == Number
            && k < r.cursor.pos <= |s|
            && r.token.value == Some(s[k..r.cursor.pos])
            && (forall i :: k < i < r.cursor.pos ==> IsNumberChar(s[i]))
            && !IsNumberChar(PeekAt(s, r.cursor.pos))
  {
    LexSkipsWhitespace(s, c, k);
    LexNumberRun(s, TrackedCursor(s, k + 1));
  }

  /** At the end of the input `Read` gives EOL, one column further on each
      call, and stays at the end. */
  lemma EolRepeats(s: seq<CodeUnit>, c: Cursor)
    requires c.pos == |s|
    ensures Lex(s, c).Ok? && Lex(s, Lex(s, c).value.cursor).Ok?
    ensures var first := Lex(s, c).value;
            var second := Lex(s, first.cursor).value;
            && first.token == Token(EOL, None, c.line, c.column + 1)
            && second.token == Token(EOL, None, c.line, c.column + 2)
            && second.cursor.pos == |s|
  {
  }

  // ---------------------------------------------------------------------
  // ReadLiteral

  /** An accepted literal was spelled by the input, and the unit after it
      is an allowed tail. */
  lemma {:induction false} LiteralSpelled(s: seq<CodeUnit>, c: Cursor, literal: seq<CodeUnit>, i: nat)
    requires c.pos <= |s| && IsPlainText(literal) && 1 <= i <= |literal|
    ensures var r := LiteralFrom(s, c, literal, i);
            r.Ok? ==> && r.value.pos <= |s| && s[c.pos..r.value.pos] == literal[i..]
                      && IsLiteralTail(PeekAt(s, r.value.pos))
    decreases |literal| - i
  {
    if i < |literal| && PeekAt(s, c.pos) == literal[i] {
      var next := Cursor(c.pos + 1, c.line, c.column + 1);
      assert NextChar(s, c).cursor == next;
      LiteralSpelled(s, next, literal, i + 1);
      var r := LiteralFrom(s, next, literal, i + 1);
      if r.Ok? {
        assert s[c.pos..r.value.pos] == [s[c.pos]] + s[next.pos..r.value.pos];
      }
    }
  }

  /** A literal is accepted when the input spells the rest of it and then
      shows an allowed tail, which is left unread (the converse is
      LiteralFrom's own postcondition). */
  lemma {:induction false} LiteralAccepted(s: seq<CodeUnit>, c: Cursor, literal: seq<CodeUnit>, i: nat)
    requires c.pos <= |s| && IsPlainText(literal) && 1 <= i <= |literal|
    requires c.pos + (|literal| - i) <= |s| && s[c.pos..c.pos + (|literal| - i)] == literal[i..]
    requires IsLiteralTail(PeekAt(s, c.pos + (|literal| - i)))
    ensures LiteralFrom(s, c, literal, i) == Ok(Cursor(c.pos + (|literal| - i), c.line, c.column + (|literal| - i)))
    decreases |literal| - i
  {
    var n := |literal| - i;
    if i < |literal| {
      var next := Cursor(c.pos + 1, c.line, c.column + 1);
      assert PeekAt(s, c.pos) == literal[i] && NextChar(s, c).cursor == next by {
        assert s[c.pos..c.pos + n][0] == s[c.pos];
      }
      assert s[next.pos..next.pos + (n - 1)] == literal[i + 1..] by {
        assert s[next.pos..next.pos + (n - 1)] == s[c.pos..c.pos + n][1..];
      }
      LiteralAccepted(s, next, literal, i + 1);
      assert LiteralFrom(s, c, literal, i) == LiteralFrom(s, next, literal, i + 1);
    } else {
      assert PeekAt(s, c.pos + n) == PeekAt(s, c.pos);
      assert LiteralFrom(s, c, literal, i) == Ok(c);
    }
  }

  /** At the first unit that differs from the literal, the error is an
      unrecognized literal at the line and column reached so far. */
  lemma {:induction false} LiteralMismatch(s: seq<CodeUnit>, c: Cursor, literal: seq<CodeUnit>, i: nat, j: nat)
    requires c.pos <= |s| && IsPlainText(literal) && 1 <= i <= j < |literal|
    requires c.pos + (j - i) <= |s| && s[c.pos..c.pos + (j - i)] == literal[i..j]
    requires PeekAt(s, c.pos + (j - i)) != literal[j]
    ensures LiteralFrom(s, c, literal, i)
            == Err(JsonDeserializerError(UnrecognizedLiteral(literal), c.line, c.column + (j - i)))
    decreases j - i
  {
    if i < j {
      assert s[c.pos..c.pos + (j - i)][0] == s[c.pos];
      var next := NextChar(s, c).cursor;
      assert s[next.pos..next.pos + (j - (i + 1))] == literal[i + 1..j];
      LiteralMismatch(s, next, literal, i + 1, j);
    }
  }

  /** A literal followed by a unit outside the allowed tails is an
      illegal-trailing-character error just after the literal. */
  lemma {:induction false} LiteralBadTail(s: seq<CodeUnit>, c: Cursor, literal: seq<CodeUnit>, i: nat)
    requires c.pos <= |s| && IsPlainText(literal) && 1 <= i <= |literal|
    requires c.pos + (|literal| - i) <= |s| && s[c.pos..c.pos + (|literal| - i)] == literal[i..]
    requires !IsLiteralTail(PeekAt(s, c.pos + (|literal| - i)))
    ensures LiteralFrom(s, c, literal, i)
            == Err(JsonDeserializerError(IllegalTrailingCharacter(PeekAt(s, c.pos + (|literal| - i)), literal),
                                         c.line, c.column + (|literal| - i)))
    decreases |literal| - i
  {
    if i < |literal| {
      assert s[c.pos..c.pos + (|literal| - i)][0] == s[c.pos];
      var next := NextChar(s, c).cursor;
      assert s[next.pos..next.pos + (|literal| - (i + 1))] == literal[i + 1..];
      LiteralBadTail(s, next, literal, i + 1);
    }
  }

  // ---------------------------------------------------------------------
  // ReadString

  /** The errors of an escape are reported at the unit after the
      backslash; an unknown escape unit is a bad-escape error. */
  lemma UnescapeErrors(s: seq<CodeUnit>, c: Cursor, e: CodeUnit)
    requires c.pos <= |s|
    ensures Unescape(s, c, e).Err? ==>
              && Unescape(s, c, e).error.JsonDeserializerError?
              && Unescape(s, c, e).error.line == c.line
              && Unescape(s, c, e).error.column == c.column
    ensures Unescape(s, c, e) == Err(JsonDeserializerError(BadEscape, c.line, c.column))
            <==> SimpleEscape(e).None? && e != 0x75
  {
    if e == 0x75 {
      UnicodeUnitsErrorAt(s, c, 4, [], Position(c.line, c.column));
    }
  }

  lemma {:induction false} UnicodeUnitsErrorAt(s: seq<CodeUnit>, c: Cursor, left: nat, acc: seq<CodeUnit>, at: Position)
    requires c.pos <= |s|
    ensures UnicodeUnits(s, c, left, acc, at).Err? ==>
              UnicodeUnits(s, c, left, acc, at).error == JsonDeserializerError(OpenString, at.line, at.column)
    decreases left
  {
    if left > 0 {
      var n := NextChar(s, c);
      if n.unit != EndOfInput {
        UnicodeUnitsErrorAt(s, n.cursor, left - 1, acc + [n.unit as CodeUnit], at);
      }
    }
  }

  /** A string with no closing quotation mark left in the input fails,
      and with no backslash either it fails as an open string. */
  lemma {:induction false} UnterminatedString(s: seq<CodeUnit>, c: Cursor, buf: seq<CodeUnit>, escaped: bool)
    requires c.pos <= |s|
    requires forall i :: c.pos <= i < |s| ==> s[i] != Quotation
    ensures StringFrom(s, c, buf, escaped).Err?
    ensures !escaped && (forall i :: c.pos <= i < |s| ==> s[i] != ReverseSolidus) ==>
              StringFrom(s, c, buf, escaped).error.JsonDeserializerError?
              && StringFrom(s, c, buf, escaped).error.kind == OpenString
    decreases |s| - c.pos
  {
    var n := NextChar(s, c);
    if n.unit != EndOfInput && n.unit != LF {
      if escaped {
        var d := Unescape(s, n.cursor, n.unit);
        if d.Ok? {
          UnterminatedString(s, d.value.cursor, buf + [d.value.unit as CodeUnit], false);
        }
      } else if n.unit == ReverseSolidus {
        UnterminatedString(s, n.cursor, buf, true);
      } else {
        assert s[n.cursor.pos - 1] == n.unit;
        UnterminatedString(s, n.cursor, buf + [n.unit as CodeUnit], false);
      }
    }
  }

  /** Units the string loop copies as they are: not a quotation mark, a
      backslash or a line break. */
  predicate IsPlainStringUnit(u: int) {
    u != Quotation && u != ReverseSolidus && !IsLineBreak(u)
  }

  /** Outside an escape, a run of plain units is copied to the text
      unchanged, one column each. */
  lemma {:induction false} StringPlainRun(s: seq<CodeUnit>, c: Cursor, buf: seq<CodeUnit>, k: nat)
    requires c.pos <= k <= |s|
    requires forall i :: c.pos <= i < k ==> IsPlainStringUnit(s[i])
    ensures StringFrom(s, c, buf, false)
            == StringFrom(s, Cursor(k, c.line, c.column + (k - c.pos)), buf + s[c.pos..k], false)
    decreases k - c.pos
  {
    if c.pos == k {
      assert buf + s[c.pos..k] == buf;
    } else {
      var next := Cursor(c.pos + 1, c.line, c.column + 1);
      assert NextChar(s, c) == CharRead(s[c.pos], next);
      assert StringFrom(s, c, buf, false) == StringFrom(s, next, buf + [s[c.pos]], false);
      StringPlainRun(s, next, buf + [s[c.pos]], k);
      assert buf + [s[c.pos]] + s[next.pos..k] == buf + s[c.pos..k];
    }
  }

  /** A string whose units up to the next quotation mark are plain reads
      exactly those units, and the cursor stops just past the quotation
      mark. */
  lemma StringClosed(s: seq<CodeUnit>, c: Cursor, buf: seq<CodeUnit>, k: nat)
    requires c.pos <= k < |s| && s[k] == Quotation
    requires forall i :: c.pos <= i < k ==> IsPlainStringUnit(s[i])
    ensures StringFrom(s, c, buf, false)
            == Ok(TextRead(buf + s[c.pos..k], Cursor(k + 1, c.line, c.column + (k - c.pos) + 1)))
  {
    StringPlainRun(s, c, buf, k);
    var at := Cursor(k, c.line, c.column + (k - c.pos));
    assert NextChar(s, at) == CharRead(Quotation, Cursor(k + 1, at.line, at.column + 1));
  }

  /** A backslash and the unit after it append what that escape decodes
      to, and the string goes on after the escape; a failing escape fails
      the string. */
  lemma StringEscape(s: seq<CodeUnit>, c: Cursor, buf: seq<CodeUnit>)
    requires c.pos + 1 < |s| && s[c.pos] == ReverseSolidus && !IsLineBreak(s[c.pos + 1])
    ensures var d := Unescape(s, Cursor(c.pos + 2, c.line, c.column + 2), s[c.pos + 1]);
            StringFrom(s, c, buf, false)
            == if d.Err? then Err(d.error)
               else StringFrom(s, d.value.cursor, buf + [d.value.unit as CodeUnit], false)
  {
    var c1 := Cursor(c.pos + 1, c.line, c.column + 1);
    assert NextChar(s, c) == CharRead(ReverseSolidus, c1);
    assert NextChar(s, c1) == CharRead(s[c.pos + 1], Cursor(c.pos + 2, c.line, c.column + 2));
  }

  /** A one-character escape appends the unit it was written for. */
  lemma StringSimpleEscape(s: seq<CodeUnit>, c: Cursor, buf: seq<CodeUnit>, u: CodeUnit)
    requires u in {Quotation, ReverseSolidus, Solidus, BACKSPACE, FF, LF, CR, HT}
    requires c.pos + 1 < |s| && s[c.pos] == ReverseSolidus && s[c.pos + 1] == EscapeLetter(u)
    ensures StringFrom(s, c, buf, false)
            == StringFrom(s, Cursor(c.pos + 2, c.line, c.column + 2), buf + [u], false)
  {
    SimpleEscapeRoundTrip(u);
    StringEscape(s, c, buf);
  }

  /** A string token without escapes carries exactly the units between
      its quotation marks. */
  lemma StringToken(s: seq<CodeUnit>, c: Cursor, k: nat, j: nat)
    requires Tracks(s, c) && c.pos <= k < j < |s| && s[k] == Quotation && s[j] == Quotation
    requires forall i :: c.pos <= i < k ==> IsSpace(s[i])
    requires forall i :: k < i < j ==> IsPlainStringUnit(s[i])
    ensures Lex(s, c).Ok?
    ensures Lex(s, c).value.token.tokenType == String
    ensures Lex(s, c).value.token.value == Some(s[k + 1..j])
    ensures Lex(s, c).value.cursor.pos == j + 1
  {
    LexSkipsWhitespace(s, c, k);
    var t := TrackedCursor(s, k + 1);
    StringClosed(s, t, [], j);
    assert [] + s[k + 1..j] == s[k + 1..j];
  }

  /** The escape letter a JSON writer uses for each of the eight units
      with a one-character escape. */
  function EscapeLetter(u: CodeUnit): (e: CodeUnit)
    requires u in {Quotation, ReverseSolidus, Solidus, BACKSPACE, FF, LF, CR, HT}
  {
    if u == BACKSPACE then 0x62       // 'b'
    else if u == FF then 0x66         // 'f'
    else if u == LF then 0x6E         // 'n'
    else if u == CR then 0x72         // 'r'
    else if u == HT then 0x74         // 't'
    else u
  }

  /** Each one-character escape decodes to the unit it was written for. */
  lemma SimpleEscapeRoundTrip(u: CodeUnit)
    requires u in {Quotation, ReverseSolidus, Solidus, BACKSPACE, FF, LF, CR, HT}
    ensures SimpleEscape(EscapeLetter(u)) == Some(u)
  {
  }

  /** The upper-case hexadecimal digit of `d`. */
  function HexChar(d: nat): (u: CodeUnit)
    requires d < 16
    ensures HexDigit(u) == Some(d)
  {
    if d < 10 then 0x30 + d else 0x41 + (d - 10)
  }

  /** The four digits a writer puts after `\u` for the unit `u`. */
  function HexDigits(u: CodeUnit): (hex: seq<CodeUnit>)
    ensures |hex| == 4 && IsPlainText(hex)
  {
    [HexChar(u / 0x1000), HexChar(u / 0x100 % 16), HexChar(u / 0x10 % 16), HexChar(u % 16)]
  }

  /** Four hexadecimal digits give back the unit they were written for. */
  lemma HexValueRoundTrip(u: CodeUnit)
    ensures HexValue(HexDigits(u)) == Some(u)
  {
    var d0, d1, d2, d3 := u / 0x1000, u / 0x100 % 16, u / 0x10 % 16, u % 16;
    assert u / 0x100 == d0 * 16 + d1;
    assert u / 0x10 == (d0 * 16 + d1) * 16 + d2;
  }

  /** `left` units without line breaks are read one by one. */
  lemma {:induction false} UnicodeUnitsPlain(s: seq<CodeUnit>, c: Cursor, left: nat, acc: seq<CodeUnit>, at: Position)
    requires c.pos + left <= |s| && IsPlainText(s[c.pos..c.pos + left])
    ensures UnicodeUnits(s, c, left, acc, at)
            == Ok(TextRead(acc + s[c.pos..c.pos + left], Cursor(c.pos + left, c.line, c.column + left)))
    decreases left
  {
    if left == 0 {
      assert acc + s[c.pos..c.pos] == acc;
    } else {
      assert s[c.pos..c.pos + left][0] == s[c.pos];
      var next := Cursor(c.pos + 1, c.line, c.column + 1);
      assert NextChar(s, c) == CharRead(s[c.pos], next);
      assert s[next.pos..next.pos + (left - 1)] == s[c.pos..c.pos + left][1..];
      UnicodeUnitsPlain(s, next, left - 1, acc + [s[c.pos]], at);
      assert acc + [s[c.pos]] + s[next.pos..next.pos + (left - 1)] == acc + s[c.pos..c.pos + left];
    }
  }

  /** A `\u` escape followed by the four digits of a unit decodes to that
      unit and moves four columns on. */
  lemma UnicodeEscapeRoundTrip(s: seq<CodeUnit>, c: Cursor, u: CodeUnit)
    requires c.pos + 4 <= |s| && s[c.pos..c.pos + 4] == HexDigits(u)
    ensures Unescape(s, c, 0x75) == Ok(CharRead(u, Cursor(c.pos + 4, c.line, c.column + 4)))
  {
    UnicodeUnitsPlain(s, c, 4, [], Position(c.line, c.column));
    assert [] + s[c.pos..c.pos + 4] == HexDigits(u);
    HexValueRoundTrip(u);
  }

  /** A `\u` followed by four units without line breaks, one of which is
      not a hexadecimal digit (see HexValue), is an invalid-unicode error carrying those units,
      at the position of the `u`. */
  lemma UnicodeEscapeInvalid(s: seq<CodeUnit>, c: Cursor)
    requires c.pos + 4 <= |s| && IsPlainText(s[c.pos..c.pos + 4])
    requires HexValue(s[c.pos..c.pos + 4]).None?
    ensures Unescape(s, c, 0x75)
            == Err(JsonDeserializerError(InvalidUnicode(s[c.pos..c.pos + 4]), c.line, c.column))
  {
    UnicodeUnitsPlain(s, c, 4, [], Position(c.line, c.column));
    assert [] + s[c.pos..c.pos + 4] == s[c.pos..c.pos + 4];
  }

  /** A raw line feed inside a string never reaches the string loop: it
      is dropped, so the lines "a and b" read as "ab". */
  lemma RawLineFeedDropped()
    ensures Lex([Quotation, 0x61, LF, 0x62, Quotation], Start)
            == Ok(Lexed(Token(TokenType.String, Some([0x61, 0x62]), 1, 1), Cursor(5, 2, 2)))
  {
    var s: seq<CodeUnit> := [Quotation, 0x61, LF, 0x62, Quotation];
    assert StringFrom(s, Cursor(4, 2, 1), [0x61, 0x62], false) == Ok(TextRead([0x61, 0x62], Cursor(5, 2, 2)));
    assert NextChar(s, Cursor(3, 2, 0)) == CharRead(0x62, Cursor(4, 2, 1));
    assert NextChar(s, Cursor(2, 1, 2)) == CharRead(0x62, Cursor(4, 2, 1));
    var b1: seq<CodeUnit> := [0x61];
    assert b1 + [0x62 as CodeUnit] == [0x61, 0x62];
    assert StringFrom(s, Cursor(2, 1, 2), [0x61], false) == Ok(TextRead([0x61, 0x62], Cursor(5, 2, 2)));
    var b0: seq<CodeUnit> := [];
    assert b0 + [0x61 as CodeUnit] == [0x61];
    assert StringFrom(s, Cursor(1, 1, 1), [], false) == Ok(TextRead([0x61, 0x62], Cursor(5, 2, 2)));
  }

  // ---------------------------------------------------------------------
  // Line and column through a whole Read

  /** A new buffer's cursor tracks the input. */
  lemma StartTracks(s: seq<CodeUnit>)
    ensures Tracks(s, Start)
  {
    assert s[..0] == [];
  }

  /** The loop of `ReadNumber` keeps the cursor tracking the input. */
  lemma {:induction false} NumberTailTracks(s: seq<CodeUnit>, c: Cursor)
    requires Tracks(s, c)
    ensures Tracks(s, NumberTail(s, c).cursor)
    decreases |s| - c.pos
  {
    if IsNumberChar(PeekAt(s, c.pos)) {
      NextCharTracks(s, c);
      NumberTailTracks(s, NextChar(s, c).cursor);
    }
  }

  /** An accepted literal leaves the cursor tracking the input. */
  lemma {:induction false} LiteralFromTracks(s: seq<CodeUnit>, c: Cursor, literal: seq<CodeUnit>, i: nat)
    requires Tracks(s, c) && IsPlainText(literal) && 1 <= i <= |literal|
    ensures LiteralFrom(s, c, literal, i).Ok? ==> Tracks(s, LiteralFrom(s, c, literal, i).value)
    decreases |literal| - i
  {
    if i < |literal| && PeekAt(s, c.pos) == literal[i] {
      NextCharTracks(s, c);
      LiteralFromTracks(s, NextChar(s, c).cursor, literal, i + 1);
    }
  }

  /** The four reads after `\u` keep the cursor tracking the input. */
  lemma {:induction false} UnicodeUnitsTracks(s: seq<CodeUnit>, c: Cursor, left: nat, acc: seq<CodeUnit>, at: Position)
    requires Tracks(s, c)
    ensures UnicodeUnits(s, c, left, acc, at).Ok? ==> Tracks(s, UnicodeUnits(s, c, left, acc, at).value.cursor)
    decreases left
  {
    if left > 0 {
      var n := NextChar(s, c);
      NextCharTracks(s, c);
      if n.unit != EndOfInput {
        UnicodeUnitsTracks(s, n.cursor, left - 1, acc + [n.unit as CodeUnit], at);
      }
    }
  }

  /** The loop of `ReadString` keeps the cursor tracking the input. */
  lemma {:induction false} StringFromTracks(s: seq<CodeUnit>, c: Cursor, buf: seq<CodeUnit>, escaped: bool)
    requires Tracks(s, c)
    ensures StringFrom(s, c, buf, escaped).Ok? ==> Tracks(s, StringFrom(s, c, buf, escaped).value.cursor)
    decreases |s| - c.pos
  {
    var n := NextChar(s, c);
    NextCharTracks(s, c);
    if n.unit != EndOfInput && n.unit != LF {
      if escaped {
        if n.unit == 0x75 {
          UnicodeUnitsTracks(s, n.cursor, 4, [], Position(n.cursor.line, n.cursor.column));
        }
        var d := Unescape(s, n.cursor, n.unit);
        if d.Ok? {
          StringFromTracks(s, d.value.cursor, buf + [d.value.unit as CodeUnit], false);
        }
      } else if n.unit == ReverseSolidus {
        StringFromTracks(s, n.cursor, buf, true);
      } else if n.unit != Quotation {
        StringFromTracks(s, n.cursor, buf + [n.unit as CodeUnit], false);
      }
    }
  }

  /** Whatever token follows the first unit, the cursor after it tracks
      the input. */
  lemma LexTokenTracks(s: seq<CodeUnit>, c: Cursor, first: int)
    requires Tracks(s, c) && 0 < c.pos
    ensures LexToken(s, c, first).Ok? ==> Tracks(s, LexToken(s, c, first).value.cursor)
  {
    LiteralNamesArePlain();
    if first == Quotation {
      StringFromTracks(s, c, [], false);
    } else if first == 0x74 {
      LiteralFromTracks(s, c, ValueTrue, 1);
    } else if first == 0x66 {
      LiteralFromTracks(s, c, ValueFalse, 1);
    } else if first == 0x6E {
      LiteralFromTracks(s, c, ValueNull, 1);
    } else if IsDigit(first) || first == Minus {
      NumberTailTracks(s, c);
    }
  }

  /** `Read` keeps `_line`/`_column` equal to the position the units it
      consumed lead to, so every later token is placed like the first. */
  lemma {:induction false} LexTracks(s: seq<CodeUnit>, c: Cursor)
    requires Tracks(s, c)
    ensures Lex(s, c).Ok? ==> Tracks(s, Lex(s, c).value.cursor)
    decreases |s| - c.pos
  {
    var n := NextChar(s, c);
    NextCharTracks(s, c);
    if n.unit != EndOfInput {
      if IsWhitespace(n.unit) {
        LexTracks(s, n.cursor);
      } else {
        LexTokenTracks(s, n.cursor, n.unit);
      }
    }
  }
}
