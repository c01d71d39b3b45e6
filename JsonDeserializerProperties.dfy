/** What the parser of JsonDeserializer.cs guarantees: when a whole input
    is accepted, what the value of an input holding no token is, where a
    value is placed, which tokens cannot start a value, and that arrays
    and objects only ever grow while they are read. */
module JsonDeserializerProperties {
  import opened JsonConstants
  import opened JsonPosition
  import opened JsonToken
  import opened JsonErrors
  import opened JsonBufferSpec
  import opened JsonBufferProperties
  import opened JsonPrimitive
  import opened JsonDeserializerSpec

  // ---------------------------------------------------------------------
  // Deserialize()

  /** The value that starts at `c`: the first token, then the value it
      opens. */
  function ValueFrom(s: seq<CodeUnit>, c: Cursor, parseDouble: seq<CodeUnit> -> DoubleParse): (r: Result<ValueRead>)
    requires c.pos <= |s|
    ensures r.Ok? ==> c.pos <= r.value.cursor.pos <= |s|
  {
    var first :- Lex(s, c);
    ParseValue(s, first.cursor, first.token, parseDouble)
  }

  /** Nothing but whitespace from `from` on. */
  predicate OnlySpaceFrom(s: seq<CodeUnit>, from: nat) {
    forall i :: from <= i < |s| ==> IsSpace(s[i])
  }

  /** The input is accepted exactly when a value can be read and nothing
      but whitespace follows it; the result is then that value. */
  lemma AcceptedIffOnlySpaceFollows(s: seq<CodeUnit>, c: Cursor, parseDouble: seq<CodeUnit> -> DoubleParse)
    requires c.pos <= |s|
    ensures DeserializeFrom(s, c, parseDouble).Ok?
            <==> ValueFrom(s, c, parseDouble).Ok? && OnlySpaceFrom(s, ValueFrom(s, c, parseDouble).value.cursor.pos)
    ensures DeserializeFrom(s, c, parseDouble).Ok? ==>
              DeserializeFrom(s, c, parseDouble).value == ValueFrom(s, c, parseDouble).value.value
  {
    var v := ValueFrom(s, c, parseDouble);
    if v.Ok? {
      EolIffOnlyWhitespace(s, v.value.cursor);
    }
  }

  /** An input holding nothing but whitespace (the empty input included)
      gives null, and no other input does. */
  lemma NullIffOnlySpace(s: seq<CodeUnit>, parseDouble: seq<CodeUnit> -> DoubleParse)
    ensures Deserialize(Some(s), parseDouble) == Ok(None) <==> OnlySpaceFrom(s, 0)
  {
    EolIffOnlyWhitespace(s, Start);
    if OnlySpaceFrom(s, 0) {
      EolRepeats(s, Lex(s, Start).value.cursor);
    }
  }

  /** The top-level value has the line and column of its first unit, the
      first one that is not whitespace. */
  lemma TopLevelPosition(s: seq<CodeUnit>, k: nat, parseDouble: seq<CodeUnit> -> DoubleParse)
    requires k < |s| && !IsSpace(s[k]) && forall i :: 0 <= i < k ==> IsSpace(s[i])
    ensures var r := Deserialize(Some(s), parseDouble);
            r.Ok? ==>
              && r.value.Some?
              && r.value.value.position == PositionAfter(Position(1, 0), s[..k + 1])
  {
    assert s[..0] == [];
    TokenAtFirstUnit(s, Start, k);
    AcceptedIffOnlySpaceFollows(s, Start, parseDouble);
  }

  /** Every value read from a tracked cursor leaves the cursor tracking
      the input: `_line`/`_column` stay right through nested arrays and
      objects. */
  lemma {:induction false} ParseValueTracks(s: seq<CodeUnit>, c: Cursor, tok: Token,
                                            parseDouble: seq<CodeUnit> -> DoubleParse)
    requires FromRead(s, c, tok) && Tracks(s, c)
    ensures var r := ParseValue(s, c, tok, parseDouble);
            r.Ok? ==> Tracks(s, r.value.cursor)
    decreases |s| - c.pos, if tok.tokenType == EOL then 0 else 3
  {
    if tok.tokenType == TokenType.LeftSquareBracket {
      ArrayLoopTracks(s, c, GetPosition(tok), [], parseDouble);
    } else if tok.tokenType == TokenType.LeftCurlyBracket {
      ObjectLoopTracks(s, c, GetPosition(tok), map[], parseDouble);
    }
  }

  lemma {:induction false} ArrayLoopTracks(s: seq<CodeUnit>, c: Cursor, head: Position, items: seq<Value>,
                                           parseDouble: seq<CodeUnit> -> DoubleParse)
    requires Tracks(s, c)
    ensures var r := ParseArrayLoop(s, c, head, items, parseDouble);
            r.Ok? ==> Tracks(s, r.value.cursor)
    decreases |s| - c.pos, 2
  {
    var next := Lex(s, c);
    LexTracks(s, c);
    if next.Ok? && next.value.token.tokenType != TokenType.RightSquareBracket {
      ArrayElementTracks(s, next.value.cursor, c, head, items, next.value.token, parseDouble);
    }
  }

  lemma {:induction false} ArrayElementTracks(s: seq<CodeUnit>, c: Cursor, round: Cursor, head: Position,
                                              items: seq<Value>, tok: Token,
                                              parseDouble: seq<CodeUnit> -> DoubleParse)
    requires FromRead(s, c, tok) && round.pos <= c.pos && Tracks(s, c)
    requires tok.tokenType != EOL ==> round.pos < c.pos
    ensures var r := ParseArrayElement(s, c, round, head, items, tok, parseDouble);
            r.Ok? ==> Tracks(s, r.value.cursor)
    decreases |s| - round.pos, 1
  {
    var element := ParseValue(s, c, tok, parseDouble);
    ParseValueTracks(s, c, tok, parseDouble);
    if element.Ok? {
      var after := Lex(s, element.value.cursor);
      LexTracks(s, element.value.cursor);
      if after.Ok? && after.value.token.tokenType == TokenType.Comma {
        var items' := items + [element.value.value.value];
        ArrayLoopTracks(s, after.value.cursor, head, items', parseDouble);
      }
    }
  }

  lemma {:induction false} ObjectLoopTracks(s: seq<CodeUnit>, c: Cursor, head: Position,
                                            members: map<seq<CodeUnit>, Value>,
                                            parseDouble: seq<CodeUnit> -> DoubleParse)
    requires Tracks(s, c)
    ensures var r := ParseObjectLoop(s, c, head, members, parseDouble);
            r.Ok? ==> Tracks(s, r.value.cursor)
    decreases |s| - c.pos, 2
  {
    var next := Lex(s, c);
    LexTracks(s, c);
    if next.Ok? && next.value.token.tokenType == String && next.value.token.value.value !in members {
      MemberTracks(s, next.value.cursor, c, head, members, next.value.token.value.value, parseDouble);
    }
  }

  lemma {:induction false} MemberTracks(s: seq<CodeUnit>, c: Cursor, round: Cursor, head: Position,
                                        members: map<seq<CodeUnit>, Value>, name: seq<CodeUnit>,
                                        parseDouble: seq<CodeUnit> -> DoubleParse)
    requires round.pos < c.pos <= |s| && Tracks(s, c)
    ensures var r := ParseMember(s, c, round, head, members, name, parseDouble);
            r.Ok? ==> Tracks(s, r.value.cursor)
    decreases |s| - round.pos, 1
  {
    var r := ParseMember(s, c, round, head, members, name, parseDouble);
    if r.Ok? {
      var colon := Lex(s, c).value;
      LexTracks(s, c);
      var member := ValueFrom(s, colon.cursor, parseDouble).value;
      MemberValueTracks(s, colon.cursor, round, parseDouble);
      var after := Lex(s, member.cursor).value;
      LexTracks(s, member.cursor);
      var members' := members[name := member.value.value];
      if after.token.tokenType == TokenType.Comma {
        assert r == ParseObjectLoop(s, after.cursor, head, members', parseDouble);
        ObjectLoopTracks(s, after.cursor, head, members', parseDouble);
      } else {
        assert r.value.cursor == after.cursor;
      }
    }
  }

  /** The value after a member's colon leaves the cursor tracking. */
  lemma {:induction false} MemberValueTracks(s: seq<CodeUnit>, c: Cursor, round: Cursor,
                                             parseDouble: seq<CodeUnit> -> DoubleParse)
    requires round.pos < c.pos <= |s| && Tracks(s, c)
    ensures var r := ValueFrom(s, c, parseDouble);
            r.Ok? ==> Tracks(s, r.value.cursor)
    decreases |s| - round.pos, 0
  {
    var first := Lex(s, c);
    LexTracks(s, c);
    if first.Ok? {
      ParseValueTracks(s, first.value.cursor, first.value.token, parseDouble);
    }
  }

  /** Any value, nested or not, read from a cursor that tracks the input
      has the line and column of its first unit that is not whitespace. */
  lemma ValueAtFirstUnit(s: seq<CodeUnit>, c: Cursor, k: nat, parseDouble: seq<CodeUnit> -> DoubleParse)
    requires Tracks(s, c) && c.pos <= k < |s| && !IsSpace(s[k])
    requires forall i :: c.pos <= i < k ==> IsSpace(s[i])
    ensures var r := ValueFrom(s, c, parseDouble);
            r.Ok? ==>
              && r.value.value.Some?
              && r.value.value.value.position == PositionAfter(Position(1, 0), s[..k + 1])
              && Tracks(s, r.value.cursor)
  {
    TokenAtFirstUnit(s, c, k);
    var first := Lex(s, c);
    if first.Ok? {
      ParseValueTracks(s, first.value.cursor, first.value.token, parseDouble);
    }
  }

  // ---------------------------------------------------------------------
  // DeserializeInternal

  /** The tokens that can never start a value. */
  predicate IsCloseOrSeparator(t: TokenType) {
    t == TokenType.RightSquareBracket || t == TokenType.RightCurlyBracket
    || t == TokenType.Colon || t == TokenType.Comma
  }

  /** A token that opens no array or object gives its leaf without
      reading further.  It fails exactly when it is a closing bracket, a
      colon or a comma (an unexpected-token error at the token) or a
      number the conversion rejects. */
  lemma LeafValue(s: seq<CodeUnit>, c: Cursor, tok: Token, parseDouble: seq<CodeUnit> -> DoubleParse)
    requires FromRead(s, c, tok) && tok.tokenType != EOL
    requires tok.tokenType != TokenType.LeftSquareBracket && tok.tokenType != TokenType.LeftCurlyBracket
    ensures var r := ParseValue(s, c, tok, parseDouble);
            && (r.Err? <==> IsCloseOrSeparator(tok.tokenType)
                            || (tok.tokenType == Number && !parseDouble(tok.value.value).Parsed?))
            && (IsCloseOrSeparator(tok.tokenType) ==> r == Err(ErrorAt(UnexpectedToken(tok.value, tok.tokenType), tok)))
            && (r.Ok? ==> r.value.cursor == c && r.value.value.Some?)
            && (r.Ok? ==> var v := r.value.value.value;
                          && (v.JsonString? <==> tok.tokenType == String)
                          && (v.JsonBoolean? <==> tok.tokenType == True || tok.tokenType == False)
                          && (v.JsonNull? <==> tok.tokenType == Null)
                          && (v.JsonNumber? <==> tok.tokenType == Number)
                          && (v.JsonString? ==> v.text == tok.value.value)
                          && (v.JsonBoolean? ==> (v.boolean <==> tok.tokenType == True))
                          && (v.JsonNumber? ==> v.raw == tok.value.value))
  {
  }

  // ---------------------------------------------------------------------
  // DeserializeArray

  /** The elements read so far stay, in their order, at the front of the
      array: the loop only ever appends. */
  lemma {:induction false} ArrayLoopKeepsItems(s: seq<CodeUnit>, c: Cursor, head: Position, items: seq<Value>,
                                               parseDouble: seq<CodeUnit> -> DoubleParse)
    requires c.pos <= |s|
    ensures var r := ParseArrayLoop(s, c, head, items, parseDouble);
            r.Ok? ==> items <= r.value.value.value.items
    decreases |s| - c.pos, 2
  {
    var next := Lex(s, c);
    if next.Ok? && next.value.token.tokenType != TokenType.RightSquareBracket {
      ArrayElementKeepsItems(s, next.value.cursor, c, head, items, next.value.token, parseDouble);
    }
  }

  lemma {:induction false} ArrayElementKeepsItems(s: seq<CodeUnit>, c: Cursor, round: Cursor, head: Position,
                                                  items: seq<Value>, tok: Token,
                                                  parseDouble: seq<CodeUnit> -> DoubleParse)
    requires FromRead(s, c, tok) && round.pos <= c.pos
    requires tok.tokenType != EOL ==> round.pos < c.pos
    ensures var r := ParseArrayElement(s, c, round, head, items, tok, parseDouble);
            r.Ok? ==> && |items| < |r.value.value.value.items| && items <= r.value.value.value.items
                      && r.value.value.value.items[|items|] == ParseValue(s, c, tok, parseDouble).value.value.value
    decreases |s| - round.pos, 1
  {
    var element := ParseValue(s, c, tok, parseDouble);
    if element.Ok? {
      var after := Lex(s, element.value.cursor);
      if after.Ok? && after.value.token.tokenType == TokenType.Comma {
        var items' := items + [element.value.value.value];
        ArrayLoopKeepsItems(s, after.value.cursor, head, items', parseDouble);
      }
    }
  }

  // ---------------------------------------------------------------------
  // DeserializeObject

  /** A member once read is never overwritten: the names already in the
      object are rejected as duplicates, so every later member is new. */
  lemma {:induction false} ObjectLoopKeepsMembers(s: seq<CodeUnit>, c: Cursor, head: Position,
                                                  members: map<seq<CodeUnit>, Value>,
                                                  parseDouble: seq<CodeUnit> -> DoubleParse)
    requires c.pos <= |s|
    ensures var r := ParseObjectLoop(s, c, head, members, parseDouble);
            r.Ok? ==> Keeps(members, r.value.value.value.members)
    decreases |s| - c.pos, 2
  {
    var next := Lex(s, c);
    if next.Ok? && next.value.token.tokenType == String && next.value.token.value.value !in members {
      MemberKeepsMembers(s, next.value.cursor, c, head, members, next.value.token.value.value, parseDouble);
    }
  }

  /** Every member of `before` is in `after` with the same value. */
  predicate Keeps(before: map<seq<CodeUnit>, Value>, after: map<seq<CodeUnit>, Value>) {
    forall name :: name in before ==> name in after && after[name] == before[name]
  }

  /** Adding a new name keeps what was there, so whatever keeps the
      larger map keeps the smaller one and the new member too. */
  lemma KeepsNewMember(members: map<seq<CodeUnit>, Value>, name: seq<CodeUnit>, v: Value,
                       after: map<seq<CodeUnit>, Value>)
    requires name !in members && Keeps(members[name := v], after)
    ensures Keeps(members, after) && name in after && after[name] == v
  {
  }

  /** The value a member named at `c` gets: the one after its colon. */
  function MemberValue(s: seq<CodeUnit>, c: Cursor, parseDouble: seq<CodeUnit> -> DoubleParse): Option<Value>
    requires c.pos <= |s|
  {
    match Lex(s, c)
    case Err(_) => None
    case Ok(colon) =>
      match ValueFrom(s, colon.cursor, parseDouble)
      case Err(_) => None
      case Ok(member) => member.value
  }

  /** A new member keeps the members before it, and looking its name up
      in the finished object gives the value that followed its colon. */
  lemma {:induction false} MemberKeepsMembers(s: seq<CodeUnit>, c: Cursor, round: Cursor, head: Position,
                                              members: map<seq<CodeUnit>, Value>, name: seq<CodeUnit>,
                                              parseDouble: seq<CodeUnit> -> DoubleParse)
    requires round.pos < c.pos <= |s| && name !in members
    ensures var r := ParseMember(s, c, round, head, members, name, parseDouble);
            r.Ok? ==>
              && Keeps(members, r.value.value.value.members)
              && MemberValue(s, c, parseDouble).Some?
              && name in r.value.value.value.members
              && r.value.value.value.members[name] == MemberValue(s, c, parseDouble).value
    decreases |s| - round.pos, 1
  {
    var r := ParseMember(s, c, round, head, members, name, parseDouble);
    if r.Ok? {
      var colon := Lex(s, c).value;
      var valueToken := Lex(s, colon.cursor).value;
      var member := ParseValue(s, valueToken.cursor, valueToken.token, parseDouble).value;
      var after := Lex(s, member.cursor).value;
      var members' := members[name := member.value.value];
      assert MemberValue(s, c, parseDouble) == member.value;
      if after.token.tokenType == TokenType.Comma {
        ObjectLoopKeepsMembers(s, after.cursor, head, members', parseDouble);
        KeepsNewMember(members, name, member.value.value, r.value.value.value.members);
      }
    }
  }

  // ---------------------------------------------------------------------
  // One round of each loop: how it ends, and its syntax errors

  /** The first token of an array round: a `]` closes the array with
      exactly the elements read so far; a failing read fails the array;
      any other token starts an element. */
  lemma ArrayLoopRound(s: seq<CodeUnit>, c: Cursor, head: Position, items: seq<Value>,
                       parseDouble: seq<CodeUnit> -> DoubleParse)
    requires c.pos <= |s|
    ensures var r := ParseArrayLoop(s, c, head, items, parseDouble);
            var next := Lex(s, c);
            && (next.Err? ==> r == Err(next.error))
            && (next.Ok? && next.value.token.tokenType == TokenType.RightSquareBracket ==>
                  r == Ok(ValueRead(Some(JsonArray(items, head)), next.value.cursor)))
            && (next.Ok? && next.value.token.tokenType != TokenType.RightSquareBracket ==>
                  r == ParseArrayElement(s, next.value.cursor, c, head, items, next.value.token, parseDouble))
  {
  }

  /** After an element `v`, the next token decides the round: `]` closes
      the array with exactly `items + [v]`, `,` goes on with that list,
      EOL is an invalid-array-end error and any other token an
      expect-comma error, both at that token. */
  lemma ArrayElementRound(s: seq<CodeUnit>, c: Cursor, round: Cursor, head: Position, items: seq<Value>, tok: Token,
                          parseDouble: seq<CodeUnit> -> DoubleParse)
    requires FromRead(s, c, tok) && round.pos <= c.pos
    requires tok.tokenType != EOL ==> round.pos < c.pos
    ensures var r := ParseArrayElement(s, c, round, head, items, tok, parseDouble);
            var element := ParseValue(s, c, tok, parseDouble);
            && (element.Err? ==> r == Err(element.error))
            && (element.Ok? && Lex(s, element.value.cursor).Err? ==> r == Err(Lex(s, element.value.cursor).error))
    ensures var r := ParseArrayElement(s, c, round, head, items, tok, parseDouble);
            var element := ParseValue(s, c, tok, parseDouble);
            element.Ok? && Lex(s, element.value.cursor).Ok? ==>
              var after := Lex(s, element.value.cursor).value;
              var t := after.token.tokenType;
              && (t == EOL ==> r == Err(ErrorAt(InvalidArrayEnd, after.token)))
              && (t != EOL ==> element.value.value.Some?)
              && (t == TokenType.RightSquareBracket ==>
                    r == Ok(ValueRead(Some(JsonArray(items + [element.value.value.value], head)), after.cursor)))
              && (t == TokenType.Comma ==>
                    r == ParseArrayLoop(s, after.cursor, head, items + [element.value.value.value], parseDouble))
              && (t != EOL && t != TokenType.RightSquareBracket && t != TokenType.Comma ==>
                    r == Err(ErrorAt(InvalidArrayExpectComma, after.token)))
  {
    var element := ParseValue(s, c, tok, parseDouble);
    if element.Ok? && element.value.value.None? {
      EolRepeats(s, element.value.cursor);
    }
  }

  /** The first token of an object round: EOL is an invalid-object error,
      a colon or any token that is neither a string nor `}` an
      invalid-member-name error, a name already read a duplicate-name
      error, all at that token; `}` closes the object with exactly the
      members read so far; a new name starts a member. */
  lemma ObjectLoopRound(s: seq<CodeUnit>, c: Cursor, head: Position, members: map<seq<CodeUnit>, Value>,
                        parseDouble: seq<CodeUnit> -> DoubleParse)
    requires c.pos <= |s|
    ensures var r := ParseObjectLoop(s, c, head, members, parseDouble);
            var next := Lex(s, c);
            next.Err? ==> r == Err(next.error)
    ensures var r := ParseObjectLoop(s, c, head, members, parseDouble);
            var next := Lex(s, c);
            next.Ok? ==>
              var t := next.value.token.tokenType;
              && (t == EOL ==> r == Err(ErrorAt(InvalidObject, next.value.token)))
              && (t == TokenType.RightCurlyBracket ==>
                    r == Ok(ValueRead(Some(JsonObject(members, head)), next.value.cursor)))
              && (t != EOL && t != TokenType.RightCurlyBracket && t != String ==>
                    r == Err(ErrorAt(InvalidMemberName, next.value.token)))
              && (t == String && next.value.token.value.value in members ==>
                    r == Err(ErrorAt(DuplicateMemberName(next.value.token.value.value), next.value.token)))
              && (t == String && next.value.token.value.value !in members ==>
                    r == ParseMember(s, next.value.cursor, c, head, members, next.value.token.value.value, parseDouble))
  {
  }

  /** A member after its name: a missing colon is an invalid-object error
      at the token found instead; after the value, `}` closes the object
      with exactly `members[name := v]`, `,` goes on with that map, and
      any other token is an invalid-object error at that token. */
  lemma MemberRound(s: seq<CodeUnit>, c: Cursor, round: Cursor, head: Position,
                    members: map<seq<CodeUnit>, Value>, name: seq<CodeUnit>,
                    parseDouble: seq<CodeUnit> -> DoubleParse)
    requires round.pos < c.pos <= |s|
    ensures var r := ParseMember(s, c, round, head, members, name, parseDouble);
            var colon := Lex(s, c);
            && (colon.Err? ==> r == Err(colon.error))
            && (colon.Ok? && colon.value.token.tokenType != TokenType.Colon ==>
                  r == Err(ErrorAt(InvalidObject, colon.value.token)))
            && (colon.Ok? && colon.value.token.tokenType == TokenType.Colon
                && ValueFrom(s, colon.value.cursor, parseDouble).Err? ==>
                  r == Err(ValueFrom(s, colon.value.cursor, parseDouble).error))
    ensures var r := ParseMember(s, c, round, head, members, name, parseDouble);
            var colon := Lex(s, c);
            colon.Ok? && colon.value.token.tokenType == TokenType.Colon
            && ValueFrom(s, colon.value.cursor, parseDouble).Ok? ==>
              var member := ValueFrom(s, colon.value.cursor, parseDouble).value;
              var after := Lex(s, member.cursor);
              && (after.Err? ==> r == Err(after.error))
              && (after.Ok? ==>
                    var t := after.value.token.tokenType;
                    && (t != TokenType.RightCurlyBracket && t != TokenType.Comma ==>
                          r == Err(ErrorAt(InvalidObject, after.value.token)))
                    && (t == TokenType.RightCurlyBracket || t == TokenType.Comma ==> member.value.Some?)
                    && (t == TokenType.RightCurlyBracket ==>
                          r == Ok(ValueRead(Some(JsonObject(members[name := member.value.value], head)), after.value.cursor)))
                    && (t == TokenType.Comma ==>
                          r == ParseObjectLoop(s, after.value.cursor, head, members[name := member.value.value], parseDouble)))
  {
    var colon := Lex(s, c);
    if colon.Ok? && colon.value.token.tokenType == TokenType.Colon {
      var member := ValueFrom(s, colon.value.cursor, parseDouble);
      if member.Ok? && member.value.value.None? {
        EolRepeats(s, member.value.cursor);
      }
    }
  }

  /** After the value, EOL accepts it and any other token is an
      additional-token error at that token, carrying its text. */
  lemma DeserializeFromRound(s: seq<CodeUnit>, c: Cursor, parseDouble: seq<CodeUnit> -> DoubleParse)
    requires c.pos <= |s|
    ensures var r := DeserializeFrom(s, c, parseDouble);
            var v := ValueFrom(s, c, parseDouble);
            && (v.Err? ==> r == Err(v.error))
            && (v.Ok? && Lex(s, v.value.cursor).Err? ==> r == Err(Lex(s, v.value.cursor).error))
            && (v.Ok? && Lex(s, v.value.cursor).Ok? ==>
                  var next := Lex(s, v.value.cursor).value;
                  && (next.token.tokenType == EOL ==> r == Ok(v.value.value))
                  && (next.token.tokenType != EOL ==> r == Err(ErrorAt(AdditionalToken(next.token.value), next.token))))
  {
  }

  /** An error raised at a token read from a cursor that tracks the input
      carries the line and column of the token's first unit. */
  lemma ErrorAtFirstUnit(s: seq<CodeUnit>, c: Cursor, k: nat, kind: ErrorKind)
    requires Tracks(s, c) && c.pos <= k < |s| && !IsSpace(s[k])
    requires forall i :: c.pos <= i < k ==> IsSpace(s[i])
    ensures Lex(s, c).Ok? ==>
              var p := PositionAfter(Position(1, 0), s[..k + 1]);
              ErrorAt(kind, Lex(s, c).value.token) == JsonDeserializerError(kind, p.line, p.column)
  {
    TokenAtFirstUnit(s, c, k);
  }

  /** A member name that is already in the object, written as a string
      without escapes, is a duplicate-name error at its opening quotation
      mark, whatever follows it. */
  lemma DuplicateNameRejected(s: seq<CodeUnit>, c: Cursor, k: nat, j: nat, head: Position,
                              members: map<seq<CodeUnit>, Value>, parseDouble: seq<CodeUnit> -> DoubleParse)
    requires Tracks(s, c) && c.pos <= k < j < |s| && s[k] == Quotation && s[j] == Quotation
    requires forall i :: c.pos <= i < k ==> IsSpace(s[i])
    requires forall i :: k < i < j ==> IsPlainStringUnit(s[i])
    requires s[k + 1..j] in members
    ensures var p := PositionAfter(Position(1, 0), s[..k + 1]);
            ParseObjectLoop(s, c, head, members, parseDouble)
            == Err(JsonDeserializerError(DuplicateMemberName(s[k + 1..j]), p.line, p.column))
  {
    StringToken(s, c, k, j);
    TokenAtFirstUnit(s, c, k);
  }

  /** The value read from the start leaves the cursor tracking the input. */
  lemma ValueFromStartTracks(s: seq<CodeUnit>, parseDouble: seq<CodeUnit> -> DoubleParse)
    ensures ValueFrom(s, Start, parseDouble).Ok? ==> Tracks(s, ValueFrom(s, Start, parseDouble).value.cursor)
  {
    StartTracks(s);
    LexTracks(s, Start);
    var first := Lex(s, Start);
    if first.Ok? {
      ParseValueTracks(s, first.value.cursor, first.value.token, parseDouble);
    }
  }

  /** A whole input whose value is followed by a unit other than
      whitespace is rejected; when that unit starts a token, the error is
      an additional-token error at that unit. */
  lemma AdditionalTokenRejected(s: seq<CodeUnit>, k: nat, parseDouble: seq<CodeUnit> -> DoubleParse)
    requires ValueFrom(s, Start, parseDouble).Ok?
    requires ValueFrom(s, Start, parseDouble).value.cursor.pos <= k < |s| && !IsSpace(s[k])
    requires forall i :: ValueFrom(s, Start, parseDouble).value.cursor.pos <= i < k ==> IsSpace(s[i])
    ensures Deserialize(Some(s), parseDouble).Err?
    ensures var v := ValueFrom(s, Start, parseDouble).value;
            var p := PositionAfter(Position(1, 0), s[..k + 1]);
            Lex(s, v.cursor).Ok? ==>
              Deserialize(Some(s), parseDouble)
              == Err(JsonDeserializerError(AdditionalToken(Lex(s, v.cursor).value.token.value), p.line, p.column))
  {
    var v := ValueFrom(s, Start, parseDouble).value;
    ValueFromStartTracks(s, parseDouble);
    TokenAtFirstUnit(s, v.cursor, k);
    AcceptedIffOnlySpaceFollows(s, Start, parseDouble);
  }
}
