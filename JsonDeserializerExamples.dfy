/** The cases of JsonDeserializerFacts.cs and the edge cases of the
    parser, worked out on short one-line inputs.  The conversion of
    number text is a parameter, so each case that reads numbers states
    what the conversion gives for them. */
module JsonDeserializerExamples {
  import opened JsonConstants
  import opened JsonPosition
  import opened JsonToken
  import opened JsonErrors
  import opened JsonBufferSpec
  import opened JsonBufferProperties
  import opened JsonPrimitive
  import opened JsonDeserializerSpec

  // ---------------------------------------------------------------------
  // Tokens on a line without breaks

  /** On a line without breaks, the cursor before unit `k` is at column `k`. */
  function At(k: nat): Cursor {
    Cursor(k, 1, k)
  }

  lemma LexPunctuation(s: seq<CodeUnit>, k: nat)
    requires k < |s| && PunctuationType(s[k]).Some?
    ensures Lex(s, At(k)) == Ok(Lexed(Token(PunctuationType(s[k]).value, None, 1, k + 1), At(k + 1)))
  {
    assert NextChar(s, At(k)) == CharRead(s[k], At(k + 1));
  }

  lemma LexSpace(s: seq<CodeUnit>, k: nat)
    requires k < |s| && s[k] == SP
    ensures Lex(s, At(k)) == Lex(s, At(k + 1))
  {
    assert NextChar(s, At(k)) == CharRead(s[k], At(k + 1));
  }

  lemma LexDigit(s: seq<CodeUnit>, k: nat)
    requires k < |s| && IsDigit(s[k]) && !IsNumberChar(PeekAt(s, k + 1))
    ensures Lex(s, At(k)) == Ok(Lexed(Token(Number, Some([s[k]]), 1, k + 1), At(k + 1)))
  {
    assert NextChar(s, At(k)) == CharRead(s[k], At(k + 1));
    assert NumberTail(s, At(k + 1)) == TextRead([], At(k + 1));
    LexTokenNumber(s, At(k + 1), s[k]);
    assert [s[k]] + [] == [s[k]];
  }

  /** A string of one plain unit between quotes. */
  lemma LexLetter(s: seq<CodeUnit>, k: nat)
    requires k + 2 < |s| && s[k] == Quotation && s[k + 2] == Quotation
    requires 0x61 <= s[k + 1] <= 0x7A
    ensures Lex(s, At(k)) == Ok(Lexed(Token(TokenType.String, Some([s[k + 1]]), 1, k + 1), At(k + 3)))
  {
    assert NextChar(s, At(k)) == CharRead(s[k], At(k + 1));
    assert NextChar(s, At(k + 1)) == CharRead(s[k + 1], At(k + 2));
    assert NextChar(s, At(k + 2)) == CharRead(s[k + 2], At(k + 3));
    var empty: seq<CodeUnit> := [];
    assert empty + [s[k + 1]] == [s[k + 1]];
    assert StringFrom(s, At(k + 1), [], false) == StringFrom(s, At(k + 2), [s[k + 1]], false);
  }

  /** The number read from the one-digit text at `k`. */
  function DigitAt(s: seq<CodeUnit>, k: nat, parseDouble: seq<CodeUnit> -> DoubleParse): Value
    requires k < |s| && parseDouble([s[k]]).Parsed?
  {
    JsonNumber([s[k]], parseDouble([s[k]]).number, Position(1, k + 1))
  }

  /** The string of the one letter at `k + 1`. */
  function LetterAt(s: seq<CodeUnit>, k: nat): Value
    requires k + 1 < |s|
  {
    JsonString([s[k + 1]], Position(1, k + 1))
  }

  // ---------------------------------------------------------------------
  // One round of the array and object loops

  lemma ArraySpace(s: seq<CodeUnit>, k: nat, head: Position, items: seq<Value>, parseDouble: seq<CodeUnit> -> DoubleParse)
    requires k < |s| && s[k] == SP
    ensures ParseArrayLoop(s, At(k), head, items, parseDouble) == ParseArrayLoop(s, At(k + 1), head, items, parseDouble)
  {
    LexSpace(s, k);
  }

  lemma ArrayClose(s: seq<CodeUnit>, k: nat, head: Position, items: seq<Value>, parseDouble: seq<CodeUnit> -> DoubleParse)
    requires k < |s| && s[k] == JsonConstants.RightSquareBracket
    ensures ParseArrayLoop(s, At(k), head, items, parseDouble) == Ok(ValueRead(Some(JsonArray(items, head)), At(k + 1)))
  {
    LexPunctuation(s, k);
  }

  /** A number token of one digit at `k` is read as its number. */
  lemma DigitValue(s: seq<CodeUnit>, k: nat, parseDouble: seq<CodeUnit> -> DoubleParse)
    requires k < |s| && IsDigit(s[k]) && !IsNumberChar(PeekAt(s, k + 1)) && parseDouble([s[k]]).Parsed?
    ensures ParseValue(s, At(k + 1), Token(Number, Some([s[k]]), 1, k + 1), parseDouble)
            == Ok(ValueRead(Some(DigitAt(s, k, parseDouble)), At(k + 1)))
  {
  }

  /** A one-digit element and then a comma. */
  lemma ArrayDigitComma(s: seq<CodeUnit>, k: nat, head: Position, items: seq<Value>, parseDouble: seq<CodeUnit> -> DoubleParse)
    requires k + 1 < |s| && IsDigit(s[k]) && parseDouble([s[k]]).Parsed? && s[k + 1] == JsonConstants.Comma
    ensures ParseArrayLoop(s, At(k), head, items, parseDouble)
            == ParseArrayLoop(s, At(k + 2), head, items + [DigitAt(s, k, parseDouble)], parseDouble)
  {
    var tok := Token(Number, Some([s[k]]), 1, k + 1);
    LexDigit(s, k);
    assert ParseArrayLoop(s, At(k), head, items, parseDouble)
           == ParseArrayElement(s, At(k + 1), At(k), head, items, tok, parseDouble);
    DigitValue(s, k, parseDouble);
    LexPunctuation(s, k + 1);
  }

  /** A one-digit element and then a closing bracket. */
  lemma ArrayDigitClose(s: seq<CodeUnit>, k: nat, head: Position, items: seq<Value>, parseDouble: seq<CodeUnit> -> DoubleParse)
    requires k + 1 < |s| && IsDigit(s[k]) && parseDouble([s[k]]).Parsed? && s[k + 1] == JsonConstants.RightSquareBracket
    ensures ParseArrayLoop(s, At(k), head, items, parseDouble)
            == Ok(ValueRead(Some(JsonArray(items + [DigitAt(s, k, parseDouble)], head)), At(k + 2)))
  {
    var tok := Token(Number, Some([s[k]]), 1, k + 1);
    LexDigit(s, k);
    assert ParseArrayLoop(s, At(k), head, items, parseDouble)
           == ParseArrayElement(s, At(k + 1), At(k), head, items, tok, parseDouble);
    DigitValue(s, k, parseDouble);
    LexPunctuation(s, k + 1);
  }

  /** A one-digit element at the end of the input. */
  lemma ArrayDigitAtEnd(s: seq<CodeUnit>, k: nat, head: Position, items: seq<Value>, parseDouble: seq<CodeUnit> -> DoubleParse)
    requires k + 1 == |s| && IsDigit(s[k]) && parseDouble([s[k]]).Parsed?
    ensures ParseArrayLoop(s, At(k), head, items, parseDouble) == Err(JsonDeserializerError(InvalidArrayEnd, 1, k + 2))
  {
    var tok := Token(Number, Some([s[k]]), 1, k + 1);
    LexDigit(s, k);
    assert ParseArrayLoop(s, At(k), head, items, parseDouble)
           == ParseArrayElement(s, At(k + 1), At(k), head, items, tok, parseDouble);
    DigitValue(s, k, parseDouble);
  }

  /** A one-letter string element and then a comma. */
  lemma ArrayLetterComma(s: seq<CodeUnit>, k: nat, head: Position, items: seq<Value>, parseDouble: seq<CodeUnit> -> DoubleParse)
    requires k + 3 < |s| && s[k] == Quotation && s[k + 2] == Quotation && 0x61 <= s[k + 1] <= 0x7A
    requires s[k + 3] == JsonConstants.Comma
    ensures ParseArrayLoop(s, At(k), head, items, parseDouble)
            == ParseArrayLoop(s, At(k + 4), head, items + [LetterAt(s, k)], parseDouble)
  {
    var tok := Token(TokenType.String, Some([s[k + 1]]), 1, k + 1);
    LexLetter(s, k);
    assert ParseArrayLoop(s, At(k), head, items, parseDouble)
           == ParseArrayElement(s, At(k + 3), At(k), head, items, tok, parseDouble);
    assert ParseValue(s, At(k + 3), tok, parseDouble) == Ok(ValueRead(Some(LetterAt(s, k)), At(k + 3)));
    LexPunctuation(s, k + 3);
  }

  /** A one-letter string element, a space and a closing bracket. */
  lemma ArrayLetterSpaceClose(s: seq<CodeUnit>, k: nat, head: Position, items: seq<Value>, parseDouble: seq<CodeUnit> -> DoubleParse)
    requires k + 4 < |s| && s[k] == Quotation && s[k + 2] == Quotation && 0x61 <= s[k + 1] <= 0x7A
    requires s[k + 3] == SP && s[k + 4] == JsonConstants.RightSquareBracket
    ensures ParseArrayLoop(s, At(k), head, items, parseDouble)
            == Ok(ValueRead(Some(JsonArray(items + [LetterAt(s, k)], head)), At(k + 5)))
  {
    var tok := Token(TokenType.String, Some([s[k + 1]]), 1, k + 1);
    LexLetter(s, k);
    assert ParseArrayLoop(s, At(k), head, items, parseDouble)
           == ParseArrayElement(s, At(k + 3), At(k), head, items, tok, parseDouble);
    assert ParseValue(s, At(k + 3), tok, parseDouble) == Ok(ValueRead(Some(LetterAt(s, k)), At(k + 3)));
    LexSpaceClose(s, k + 3);
  }

  lemma LexSpaceClose(s: seq<CodeUnit>, k: nat)
    requires k + 1 < |s| && s[k] == SP && s[k + 1] == JsonConstants.RightSquareBracket
    ensures Lex(s, At(k)) == Ok(Lexed(Token(TokenType.RightSquareBracket, None, 1, k + 2), At(k + 2)))
  {
    LexSpace(s, k);
    LexPunctuation(s, k + 1);
  }

  lemma ObjectClose(s: seq<CodeUnit>, k: nat, head: Position, members: map<seq<CodeUnit>, Value>,
                    parseDouble: seq<CodeUnit> -> DoubleParse)
    requires k < |s| && s[k] == JsonConstants.RightCurlyBracket
    ensures ParseObjectLoop(s, At(k), head, members, parseDouble) == Ok(ValueRead(Some(JsonObject(members, head)), At(k + 1)))
  {
    LexPunctuation(s, k);
  }

  /** After a new name: a colon, a one-digit value and a comma. */
  lemma MemberDigitComma(s: seq<CodeUnit>, k: nat, round: Cursor, head: Position, members: map<seq<CodeUnit>, Value>,
                         name: seq<CodeUnit>, parseDouble: seq<CodeUnit> -> DoubleParse)
    requires round.pos < k && k + 2 < |s|
    requires s[k] == JsonConstants.Colon && IsDigit(s[k + 1]) && parseDouble([s[k + 1]]).Parsed?
    requires s[k + 2] == JsonConstants.Comma
    ensures ParseMember(s, At(k), round, head, members, name, parseDouble)
            == ParseObjectLoop(s, At(k + 3), head, members[name := DigitAt(s, k + 1, parseDouble)], parseDouble)
  {
    LexPunctuation(s, k);
    LexDigit(s, k + 1);
    DigitValue(s, k + 1, parseDouble);
    LexPunctuation(s, k + 2);
  }

  /** A new one-letter name, a colon, a one-digit value and a comma. */
  lemma ObjectDigitMember(s: seq<CodeUnit>, k: nat, head: Position, members: map<seq<CodeUnit>, Value>,
                          parseDouble: seq<CodeUnit> -> DoubleParse)
    requires k + 5 < |s| && s[k] == Quotation && s[k + 2] == Quotation && 0x61 <= s[k + 1] <= 0x7A
    requires s[k + 3] == JsonConstants.Colon && IsDigit(s[k + 4]) && parseDouble([s[k + 4]]).Parsed?
    requires s[k + 5] == JsonConstants.Comma && [s[k + 1]] !in members
    ensures ParseObjectLoop(s, At(k), head, members, parseDouble)
            == ParseObjectLoop(s, At(k + 6), head, members[[s[k + 1]] := DigitAt(s, k + 4, parseDouble)], parseDouble)
  {
    LexLetter(s, k);
    MemberDigitComma(s, k + 3, At(k), head, members, [s[k + 1]], parseDouble);
  }

  /** A one-letter name that is already a member. */
  lemma ObjectDuplicate(s: seq<CodeUnit>, k: nat, head: Position, members: map<seq<CodeUnit>, Value>,
                        parseDouble: seq<CodeUnit> -> DoubleParse)
    requires k + 2 < |s| && s[k] == Quotation && s[k + 2] == Quotation && 0x61 <= s[k + 1] <= 0x7A
    requires [s[k + 1]] in members
    ensures ParseObjectLoop(s, At(k), head, members, parseDouble)
            == Err(JsonDeserializerError(DuplicateMemberName([s[k + 1]]), 1, k + 1))
  {
    LexLetter(s, k);
  }

  /** The loop of the top-level array or object that the first unit opens. */
  function TopLevelLoop(s: seq<CodeUnit>, parseDouble: seq<CodeUnit> -> DoubleParse): Result<ValueRead>
    requires 1 <= |s|
  {
    if s[0] == JsonConstants.LeftSquareBracket then ParseArrayLoop(s, At(1), Position(1, 1), [], parseDouble)
    else ParseObjectLoop(s, At(1), Position(1, 1), map[], parseDouble)
  }

  /** A top-level array or object read to the end of the input is the result. */
  lemma ContainerAccepted(s: seq<CodeUnit>, v: Value, parseDouble: seq<CodeUnit> -> DoubleParse)
    requires 1 <= |s| && (s[0] == JsonConstants.LeftSquareBracket || s[0] == JsonConstants.LeftCurlyBracket)
    requires TopLevelLoop(s, parseDouble) == Ok(ValueRead(Some(v), At(|s|)))
    ensures Deserialize(Some(s), parseDouble) == Ok(Some(v))
  {
    LexPunctuation(s, 0);
  }

  /** An error inside a top-level array or object is the result. */
  lemma ContainerRejected(s: seq<CodeUnit>, e: Error, parseDouble: seq<CodeUnit> -> DoubleParse)
    requires 1 <= |s| && (s[0] == JsonConstants.LeftSquareBracket || s[0] == JsonConstants.LeftCurlyBracket)
    requires TopLevelLoop(s, parseDouble) == Err(e)
    ensures Deserialize(Some(s), parseDouble) == Err(e)
  {
    LexPunctuation(s, 0);
  }

  // ---------------------------------------------------------------------
  // Arrays

  const EmptyArrayText: seq<CodeUnit> := [0x5B, 0x5D]

  lemma EmptyArrayUnits()
    ensures var s := EmptyArrayText;
            |s| == 2 && s[0] == 0x5B && s[1] == 0x5D
  {
  }

  /** `[]`: an empty array at (1, 1). */
  lemma EmptyArray(parseDouble: seq<CodeUnit> -> DoubleParse)
    ensures Deserialize(Some(EmptyArrayText), parseDouble) == Ok(Some(JsonArray([], Position(1, 1))))
  {
    var s := EmptyArrayText;
    EmptyArrayUnits();
    ArrayClose(s, 1, Position(1, 1), [], parseDouble);
    ContainerAccepted(s, JsonArray([], Position(1, 1)), parseDouble);
  }

  const IntegerArrayText: seq<CodeUnit> := [0x5B, 0x31, 0x2C, 0x32, 0x2C, 0x33, 0x5D]

  lemma IntegerArrayUnits()
    ensures var s := IntegerArrayText;
            |s| == 7 && s[0] == 0x5B && s[1] == 0x31 && s[2] == 0x2C && s[3] == 0x32 && s[4] == 0x2C && s[5] == 0x33 && s[6] == 0x5D
  {
  }

  /** `[1,2,3]`: three numbers at columns 2, 4 and 6 whose integer values
      are 1, 2 and 3. */
  lemma IntegerArray(parseDouble: seq<CodeUnit> -> DoubleParse)
    requires parseDouble([0x31]) == Parsed(1.0) && parseDouble([0x32]) == Parsed(2.0)
    requires parseDouble([0x33]) == Parsed(3.0)
    ensures var one, two, three := JsonNumber([0x31], 1.0, Position(1, 2)), JsonNumber([0x32], 2.0, Position(1, 4)),
                                   JsonNumber([0x33], 3.0, Position(1, 6));
            && Deserialize(Some(IntegerArrayText), parseDouble) == Ok(Some(JsonArray([one, two, three], Position(1, 1))))
            && Int(one) == 1 && Int(two) == 2 && Int(three) == 3
  {
    var s := IntegerArrayText;
    IntegerArrayUnits();
    var head := Position(1, 1);
    var one, two, three := DigitAt(s, 1, parseDouble), DigitAt(s, 3, parseDouble), DigitAt(s, 5, parseDouble);
    ArrayDigitComma(s, 1, head, [], parseDouble);
    assert [] + [one] == [one];
    ArrayDigitComma(s, 3, head, [one], parseDouble);
    ArrayDigitClose(s, 5, head, [one, two], parseDouble);
    assert [one] + [two] == [one, two];
    assert [one, two] + [three] == [one, two, three];
    ContainerAccepted(s, JsonArray([one, two, three], head), parseDouble);
    TruncateWhole(1, 0.0);
    TruncateWhole(2, 0.0);
    TruncateWhole(3, 0.0);
  }

  const StringArrayText: seq<CodeUnit> :=
    [0x5B, 0x22, 0x61, 0x22, 0x2C, 0x20, 0x22, 0x62, 0x22, 0x2C, 0x20, 0x22, 0x63, 0x22, 0x20, 0x5D]

  /** `["a", "b", "c" ]`: an array at (1, 1) of three strings at columns
      2, 7 and 12. */
  lemma StringArrayUnits()
    ensures var s := StringArrayText;
            && |s| == 16 && s[0] == 0x5B && s[1] == 0x22 && s[2] == 0x61 && s[3] == 0x22 && s[4] == 0x2C
            && s[5] == 0x20 && s[6] == 0x22 && s[7] == 0x62 && s[8] == 0x22 && s[9] == 0x2C && s[10] == 0x20
            && s[11] == 0x22 && s[12] == 0x63 && s[13] == 0x22 && s[14] == 0x20 && s[15] == 0x5D
  {
  }

  lemma StringArray(parseDouble: seq<CodeUnit> -> DoubleParse)
    ensures Deserialize(Some(StringArrayText), parseDouble)
            == Ok(Some(JsonArray([JsonString([0x61], Position(1, 2)), JsonString([0x62], Position(1, 7)),
                                  JsonString([0x63], Position(1, 12))], Position(1, 1))))
  {
    var s := StringArrayText;
    StringArrayUnits();
    var head := Position(1, 1);
    var a, b, c := LetterAt(s, 1), LetterAt(s, 6), LetterAt(s, 11);
    assert ParseArrayLoop(s, At(1), head, [], parseDouble) == ParseArrayLoop(s, At(6), head, [a], parseDouble) by {
      ArrayLetterComma(s, 1, head, [], parseDouble);
      assert [] + [a] == [a];
      ArraySpace(s, 5, head, [a], parseDouble);
    }
    assert ParseArrayLoop(s, At(6), head, [a], parseDouble) == ParseArrayLoop(s, At(11), head, [a, b], parseDouble) by {
      ArrayLetterComma(s, 6, head, [a], parseDouble);
      assert [a] + [b] == [a, b];
      ArraySpace(s, 10, head, [a, b], parseDouble);
    }
    assert ParseArrayLoop(s, At(11), head, [a, b], parseDouble) == Ok(ValueRead(Some(JsonArray([a, b, c], head)), At(16))) by {
      ArrayLetterSpaceClose(s, 11, head, [a, b], parseDouble);
      assert [a, b] + [c] == [a, b, c];
    }
    ContainerAccepted(s, JsonArray([a, b, c], head), parseDouble);
  }

  const TrailingCommaArrayText: seq<CodeUnit> := [0x5B, 0x31, 0x2C, 0x5D]

  lemma TrailingCommaArrayUnits()
    ensures var s := TrailingCommaArrayText;
            |s| == 4 && s[0] == 0x5B && s[1] == 0x31 && s[2] == 0x2C && s[3] == 0x5D
  {
  }

  /** `[1,]`: a comma before the closing bracket is accepted. */
  lemma ArrayTrailingComma(parseDouble: seq<CodeUnit> -> DoubleParse)
    requires parseDouble([0x31]) == Parsed(1.0)
    ensures Deserialize(Some(TrailingCommaArrayText), parseDouble)
            == Ok(Some(JsonArray([JsonNumber([0x31], 1.0, Position(1, 2))], Position(1, 1))))
  {
    var s := TrailingCommaArrayText;
    TrailingCommaArrayUnits();
    var head := Position(1, 1);
    var one := DigitAt(s, 1, parseDouble);
    ArrayDigitComma(s, 1, head, [], parseDouble);
    assert [] + [one] == [one];
    ArrayClose(s, 3, head, [one], parseDouble);
    ContainerAccepted(s, JsonArray([one], head), parseDouble);
  }

  const UnclosedArrayText: seq<CodeUnit> := [0x5B, 0x31, 0x2C, 0x32]

  lemma UnclosedArrayUnits()
    ensures var s := UnclosedArrayText;
            |s| == 4 && s[0] == 0x5B && s[1] == 0x31 && s[2] == 0x2C && s[3] == 0x32
  {
  }

  /** `[1,2`: the end of the input after an element is an invalid array
      end, at the column after the last unit. */
  lemma UnclosedArray(parseDouble: seq<CodeUnit> -> DoubleParse)
    requires parseDouble([0x31]) == Parsed(1.0) && parseDouble([0x32]) == Parsed(2.0)
    ensures Deserialize(Some(UnclosedArrayText), parseDouble) == Err(JsonDeserializerError(InvalidArrayEnd, 1, 5))
  {
    var s := UnclosedArrayText;
    UnclosedArrayUnits();
    var head := Position(1, 1);
    var one := DigitAt(s, 1, parseDouble);
    ArrayDigitComma(s, 1, head, [], parseDouble);
    assert [] + [one] == [one];
    ArrayDigitAtEnd(s, 3, head, [one], parseDouble);
    ContainerRejected(s, JsonDeserializerError(InvalidArrayEnd, 1, 5), parseDouble);
  }

  // ---------------------------------------------------------------------
  // Objects and the end of the input

  const TrailingCommaObjectText: seq<CodeUnit> := [0x7B, 0x22, 0x61, 0x22, 0x3A, 0x31, 0x2C, 0x7D]

  lemma TrailingCommaObjectUnits()
    ensures var s := TrailingCommaObjectText;
            |s| == 8 && s[0] == 0x7B && s[1] == 0x22 && s[2] == 0x61 && s[3] == 0x22 && s[4] == 0x3A && s[5] == 0x31 && s[6] == 0x2C && s[7] == 0x7D
  {
  }

  /** `{"a":1,}`: a comma before the closing brace is accepted. */
  lemma ObjectTrailingComma(parseDouble: seq<CodeUnit> -> DoubleParse)
    requires parseDouble([0x31]) == Parsed(1.0)
    ensures Deserialize(Some(TrailingCommaObjectText), parseDouble)
            == Ok(Some(JsonObject(map[[0x61] := JsonNumber([0x31], 1.0, Position(1, 6))], Position(1, 1))))
  {
    var s := TrailingCommaObjectText;
    TrailingCommaObjectUnits();
    var head := Position(1, 1);
    var members := map[[0x61] := DigitAt(s, 5, parseDouble)];
    ObjectDigitMember(s, 1, head, map[], parseDouble);
    ObjectClose(s, 7, head, members, parseDouble);
    ContainerAccepted(s, JsonObject(members, head), parseDouble);
  }

  const DuplicateText: seq<CodeUnit> :=
    [0x7B, 0x22, 0x6B, 0x22, 0x3A, 0x31, 0x2C, 0x22, 0x6B, 0x22, 0x3A, 0x32, 0x7D]

  lemma DuplicateUnits()
    ensures var s := DuplicateText;
            |s| == 13 && s[0] == 0x7B && s[1] == 0x22 && s[2] == 0x6B && s[3] == 0x22 && s[4] == 0x3A && s[5] == 0x31 && s[6] == 0x2C && s[7] == 0x22 && s[8] == 0x6B && s[9] == 0x22 && s[10] == 0x3A && s[11] == 0x32 && s[12] == 0x7D
  {
  }

  /** `{"k":1,"k":2}`: the second `"k"` is a duplicate member name at
      (1, 8), its own token, before its colon is read. */
  lemma DuplicateMember(parseDouble: seq<CodeUnit> -> DoubleParse)
    requires parseDouble([0x31]) == Parsed(1.0)
    ensures Deserialize(Some(DuplicateText), parseDouble)
            == Err(JsonDeserializerError(DuplicateMemberName([0x6B]), 1, 8))
  {
    var s := DuplicateText;
    DuplicateUnits();
    var head := Position(1, 1);
    var members := map[[0x6B] := DigitAt(s, 5, parseDouble)];
    ObjectDigitMember(s, 1, head, map[], parseDouble);
    ObjectDuplicate(s, 7, head, members, parseDouble);
    ContainerRejected(s, JsonDeserializerError(DuplicateMemberName([0x6B]), 1, 8), parseDouble);
  }

  const AdditionalValueText: seq<CodeUnit> := [0x31, 0x20, 0x32]

  lemma AdditionalValueUnits()
    ensures var s := AdditionalValueText;
            |s| == 3 && s[0] == 0x31 && s[1] == 0x20 && s[2] == 0x32
  {
  }

  /** `1 2`: a second value is an additional token, at its own position. */
  lemma AdditionalValue(parseDouble: seq<CodeUnit> -> DoubleParse)
    requires parseDouble([0x31]) == Parsed(1.0)
    ensures Deserialize(Some(AdditionalValueText), parseDouble)
            == Err(JsonDeserializerError(AdditionalToken(Some([0x32])), 1, 3))
  {
    var s := AdditionalValueText;
    AdditionalValueUnits();
    LexDigit(s, 0);
    DigitValue(s, 0, parseDouble);
    LexSpace(s, 1);
    LexDigit(s, 2);
  }
}
