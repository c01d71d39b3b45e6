/** JsonToken: the lexer's output unit, and the twelve token kinds. */
module JsonToken {
  import opened JsonConstants
  import opened JsonPosition

  datatype TokenType =
    | LeftCurlyBracket
    | LeftSquareBracket
    | RightCurlyBracket
    | RightSquareBracket
    | Colon
    | Comma
    | Null
    | True
    | False
    | Number
    | String
    | EOL

  /** The kinds in declaration order; the enum's underlying value is the index. */
  const AllTokenTypes: seq<TokenType> :=
    [LeftCurlyBracket, LeftSquareBracket, RightCurlyBracket, RightSquareBracket,
     Colon, Comma, Null, True, False, Number, String, EOL]

  /** A token: its kind, its text (`null` in .NET for all but strings and
      numbers) and the line and column of its first character. */
  datatype Token = Token(tokenType: TokenType, value: Option<seq<CodeUnit>>, line: int, column: int)

  datatype Option<+T> = None | Some(value: T)

  /** `JsonToken.GetPosition`: a fresh position holding the token's coordinates. */
  function GetPosition(t: Token): (p: Position)
    ensures p.line == t.line
    ensures p.column == t.column
  {
    NewPosition(t.line, t.column)
  }

  /** Two calls on one token give positions that `Equals` each other. */
  lemma GetPositionStable(t: Token)
    ensures Equals(GetPosition(t), PositionObject(GetPosition(t)))
  {
  }

  /** There are exactly twelve kinds, all distinct, the last being EOL. */
  lemma TokenTypesAreTwelve(t: TokenType)
    ensures |AllTokenTypes| == 12 && AllTokenTypes[11] == EOL
    ensures t in AllTokenTypes
    ensures forall i, j :: 0 <= i < j < |AllTokenTypes| ==> AllTokenTypes[i] != AllTokenTypes[j]
  {
  }
}
