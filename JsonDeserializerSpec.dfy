/** The parser of JsonDeserializer.cs as functions of the input and a
    cursor.  Each function takes the cursor the lexer has reached and
    returns the cursor after the tokens it consumed, so that the class
    `JsonDeserializer` in module JsonDeserializer, which pulls the same
    tokens from its `JsonBuffer`, can be proved to agree with it. */
module JsonDeserializerSpec {
  import opened JsonConstants
  import opened JsonPosition
  import opened JsonToken
  import opened JsonErrors
  import opened JsonBufferSpec
  import opened JsonPrimitive

  /** A value read (None for the .NET null that `DeserializeInternal`
      returns at the end of the input) and the cursor after it. */
  datatype ValueRead = ValueRead(value: Option<Value>, cursor: Cursor)

  /** What holds of a token `Read` returned when it left the cursor at
      `c`: only strings and numbers carry text, and an EOL token is only
      returned at the end of the input. */
  predicate FromRead(s: seq<CodeUnit>, c: Cursor, tok: Token) {
    && c.pos <= |s|
    && (tok.value.Some? <==> HasText(tok.tokenType))
    && (tok.tokenType == EOL ==> c.pos == |s|)
  }

  /** `DeserializeInternal(tok)`, with `c` the cursor just after `tok`. */
  function ParseValue(s: seq<CodeUnit>, c: Cursor, tok: Token, parseDouble: seq<CodeUnit> -> DoubleParse): (r: Result<ValueRead>)
    requires FromRead(s, c, tok)
    ensures r.Ok? ==> c.pos <= r.value.cursor.pos <= |s|
    ensures tok.tokenType == EOL <==> r == Ok(ValueRead(None, c))
    ensures r.Ok? && r.value.value.Some? ==> r.value.value.value.position == GetPosition(tok)
    ensures r.Err? ==> r.error.JsonDeserializerError?
    decreases |s| - c.pos, if tok.tokenType == EOL then 0 else 3
  {
    if tok.tokenType == EOL then
      Ok(ValueRead(None, c))
    else if tok.tokenType == TokenType.LeftSquareBracket then
      ParseArrayLoop(s, c, GetPosition(tok), [], parseDouble)
    else if tok.tokenType == TokenType.LeftCurlyBracket then
      ParseObjectLoop(s, c, GetPosition(tok), map[], parseDouble)
    else if tok.tokenType == String then
      Ok(ValueRead(Some(JsonString(tok.value.value, GetPosition(tok))), c))
    else if tok.tokenType == True || tok.tokenType == False then
      // a True or False token never makes the constructor fail
      Ok(ValueRead(Some(NewBoolean(tok).value), c))
    else if tok.tokenType == Null then
      Ok(ValueRead(Some(NewNull(GetPosition(tok))), c))
    else if tok.tokenType == Number then
      var n :- NewNumber(tok, parseDouble);
      Ok(ValueRead(Some(n), c))
    else
      Err(ErrorAt(UnexpectedToken(tok.value, tok.tokenType), tok))
  }

  /** The loop of `DeserializeArray` with the elements `items` read so far:
      a `]` where an element may start closes the array (so also right
      after a comma); otherwise an element follows. */
  function ParseArrayLoop(s: seq<CodeUnit>, c: Cursor, head: Position, items: seq<Value>,
                          parseDouble: seq<CodeUnit> -> DoubleParse): (r: Result<ValueRead>)
    requires c.pos <= |s|
    ensures r.Ok? ==> c.pos <= r.value.cursor.pos <= |s|
    ensures r.Ok? ==> IsArrayAt(r.value.value, head)
    ensures r.Err? ==> r.error.JsonDeserializerError?
    decreases |s| - c.pos, 2
  {
    var next :- Lex(s, c);
    if next.token.tokenType == TokenType.RightSquareBracket then
      Ok(ValueRead(Some(JsonArray(items, head)), next.cursor))
    else
      ParseArrayElement(s, next.cursor, c, head, items, next.token, parseDouble)
  }

  /** The rest of one round of `DeserializeArray`'s loop, which started at
      `round` and read the token `tok`, leaving the cursor at `c`: the
      element that starts with `tok`, then a `]` or a `,`. */
  function ParseArrayElement(s: seq<CodeUnit>, c: Cursor, round: Cursor, head: Position, items: seq<Value>, tok: Token,
                             parseDouble: seq<CodeUnit> -> DoubleParse): (r: Result<ValueRead>)
    requires FromRead(s, c, tok) && round.pos <= c.pos
    requires tok.tokenType != EOL ==> round.pos < c.pos
    ensures r.Ok? ==> c.pos <= r.value.cursor.pos <= |s|
    ensures r.Ok? ==> IsArrayAt(r.value.value, head)
    ensures r.Err? ==> r.error.JsonDeserializerError?
    decreases |s| - round.pos, 1
  {
    var element :- ParseValue(s, c, tok, parseDouble);
    var after :- Lex(s, element.cursor);
    if after.token.tokenType == EOL then
      Err(ErrorAt(InvalidArrayEnd, after.token))
    else
      // a null element is only read at the end of the input, where `after`
      // is EOL again: this branch always has an element
      assert element.value.Some?;
      var items' := items + [element.value.value];
      if after.token.tokenType == TokenType.RightSquareBracket then
        Ok(ValueRead(Some(JsonArray(items', head)), after.cursor))
      else if after.token.tokenType != TokenType.Comma then
        Err(ErrorAt(InvalidArrayExpectComma, after.token))
      else
        ParseArrayLoop(s, after.cursor, head, items', parseDouble)
  }

  /** An array whose position is that of its `[`. */
  predicate IsArrayAt(v: Option<Value>, head: Position) {
    v.Some? && v.value.JsonArray? && v.value.position == head
  }

  /** An object whose position is that of its `{`. */
  predicate IsObjectAt(v: Option<Value>, head: Position) {
    v.Some? && v.value.JsonObject? && v.value.position == head
  }

  /** The loop of `DeserializeObject` with the members read so far: a `}`
      where a member may start closes the object; otherwise the member
      name must be a string token that is not yet a member. */
  function ParseObjectLoop(s: seq<CodeUnit>, c: Cursor, head: Position, members: map<seq<CodeUnit>, Value>,
                           parseDouble: seq<CodeUnit> -> DoubleParse): (r: Result<ValueRead>)
    requires c.pos <= |s|
    ensures r.Ok? ==> c.pos <= r.value.cursor.pos <= |s|
    ensures r.Ok? ==> IsObjectAt(r.value.value, head)
    ensures r.Err? ==> r.error.JsonDeserializerError?
    decreases |s| - c.pos, 2
  {
    var next :- Lex(s, c);
    if next.token.tokenType == EOL then
      Err(ErrorAt(InvalidObject, next.token))
    else if next.token.tokenType == TokenType.Colon then
      Err(ErrorAt(InvalidMemberName, next.token))
    else if next.token.tokenType == TokenType.RightCurlyBracket then
      Ok(ValueRead(Some(JsonObject(members, head)), next.cursor))
    else if next.token.tokenType != String then
      Err(ErrorAt(InvalidMemberName, next.token))
    else if next.token.value.value in members then
      Err(ErrorAt(DuplicateMemberName(next.token.value.value), next.token))
    else
      ParseMember(s, next.cursor, c, head, members, next.token.value.value, parseDouble)
  }

  /** The rest of one round of `DeserializeObject`'s loop, which started at
      `round` and read the new name `name`, leaving the cursor at `c`: a
      colon, the value, which is stored under the name, and then `}` or `,`. */
  function ParseMember(s: seq<CodeUnit>, c: Cursor, round: Cursor, head: Position, members: map<seq<CodeUnit>, Value>,
                       name: seq<CodeUnit>, parseDouble: seq<CodeUnit> -> DoubleParse): (r: Result<ValueRead>)
    requires round.pos < c.pos <= |s|
    ensures r.Ok? ==> c.pos <= r.value.cursor.pos <= |s|
    ensures r.Ok? ==> IsObjectAt(r.value.value, head)
    ensures r.Err? ==> r.error.JsonDeserializerError?
    decreases |s| - round.pos, 1
  {
    var colon :- Lex(s, c);
    if colon.token.tokenType != TokenType.Colon then
      Err(ErrorAt(InvalidObject, colon.token))
    else
      var valueToken :- Lex(s, colon.cursor);
      var member :- ParseValue(s, valueToken.cursor, valueToken.token, parseDouble);
      var after :- Lex(s, member.cursor);
      if after.token.tokenType != TokenType.RightCurlyBracket && after.token.tokenType != TokenType.Comma then
        Err(ErrorAt(InvalidObject, after.token))
      else
        // as in arrays, a null member value is followed by EOL
        assert member.value.Some?;
        var members' := members[name := member.value.value];
        if after.token.tokenType == TokenType.RightCurlyBracket then
          Ok(ValueRead(Some(JsonObject(members', head)), after.cursor))
        else
          ParseObjectLoop(s, after.cursor, head, members', parseDouble)
  }

  /** `Deserialize()`: one value, then the end of the input; any other
      token is an additional-token error at that token.  An input holding
      no token gives None. */
  function DeserializeFrom(s: seq<CodeUnit>, c: Cursor, parseDouble: seq<CodeUnit> -> DoubleParse): (r: Result<Option<Value>>)
    requires c.pos <= |s|
    ensures r.Err? ==> r.error.JsonDeserializerError?
  {
    var first :- Lex(s, c);
    var result :- ParseValue(s, first.cursor, first.token, parseDouble);
    var next :- Lex(s, result.cursor);
    if next.token.tokenType != EOL then
      Err(ErrorAt(AdditionalToken(next.token.value), next.token))
    else
      Ok(result.value)
  }

  /** `Deserialize(reader)`: a null reader is an argument-null error;
      otherwise a new buffer over the reader's text. */
  function Deserialize(reader: Option<seq<CodeUnit>>, parseDouble: seq<CodeUnit> -> DoubleParse): (r: Result<Option<Value>>)
    ensures reader.None? <==> r == Err(ArgumentNull("reader"))
  {
    match reader
    case None => Err(ArgumentNull("reader"))
    case Some(s) => DeserializeFrom(s, Start, parseDouble)
  }
}
