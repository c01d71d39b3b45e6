/** The values the deserializer builds.  `JsonNull`, `JsonBoolean` and
    `JsonNumber` are the primitives of JsonPrimitive.cs; strings, arrays
    and objects are the other kinds of `JsonValue` and are carried here with
    their contents and position only.  Every value has the position of the
    token it was built from. */
module JsonPrimitive {
  import opened JsonConstants
  import opened JsonPosition
  import opened JsonToken
  import opened JsonErrors

  datatype Value =
    | JsonNull(position: Position)
    | JsonBoolean(boolean: bool, position: Position)
    | JsonNumber(raw: seq<CodeUnit>, double: real, position: Position)
    | JsonString(text: seq<CodeUnit>, position: Position)
    | JsonArray(items: seq<Value>, position: Position)
    | JsonObject(members: map<seq<CodeUnit>, Value>, position: Position)

  /** What `double.Parse(raw, NumberStyles.Float)` does with a raw number:
      a value, or one of the two exceptions the constructor catches.  The
      conversion itself is a parameter of the model. */
  datatype DoubleParse = Parsed(number: real) | FormatError | Overflow

  /** `new JsonNull(position)`. */
  function NewNull(position: Position): (v: Value)
    ensures v.JsonNull? && v.position == position
  {
    JsonNull(position)
  }

  /** `new JsonBoolean(token)`: true for a True token, false for a False
      token, and an argument error for any other kind. */
  function NewBoolean(token: Token): (r: Result<Value>)
    ensures r.Ok? <==> token.tokenType == True || token.tokenType == False
    ensures r.Ok? ==> r.value.JsonBoolean? && (r.value.boolean <==> token.tokenType == True)
    ensures r.Ok? ==> r.value.position == GetPosition(token)
    ensures r.Err? ==> r.error == ArgumentError("token")
  {
    if token.tokenType == True then
      Ok(JsonBoolean(true, GetPosition(token)))
    else if token.tokenType == False then
      Ok(JsonBoolean(false, GetPosition(token)))
    else
      Err(ArgumentError("token"))
  }

  /** `new JsonNumber(token)`: the raw text is kept unchanged next to its
      parsed value; a format or overflow failure of the conversion is an
      error at the token's line and column.  A token without text makes
      `double.Parse` throw an argument-null error, which the constructor
      does not catch. */
  function NewNumber(token: Token, parseDouble: seq<CodeUnit> -> DoubleParse): (r: Result<Value>)
    ensures token.value.None? ==> r == Err(ArgumentNull("s"))
    ensures r.Ok? <==> token.value.Some? && parseDouble(token.value.value).Parsed?
    ensures r.Ok? ==> r.value == JsonNumber(token.value.value, parseDouble(token.value.value).number, GetPosition(token))
    ensures token.value.Some? && parseDouble(token.value.value) == FormatError ==>
              r == Err(ErrorAt(InvalidFloatFormat(token.value.value), token))
    ensures token.value.Some? && parseDouble(token.value.value) == Overflow ==>
              r == Err(ErrorAt(FloatOverflow(token.value.value), token))
  {
    match token.value
    case None => Err(ArgumentNull("s"))
    case Some(raw) =>
      match parseDouble(raw)
      case Parsed(d) => Ok(JsonNumber(raw, d, GetPosition(token)))
      case FormatError => Err(JsonDeserializerError(InvalidFloatFormat(raw), token.line, token.column))
      case Overflow => Err(JsonDeserializerError(FloatOverflow(raw), token.line, token.column))
  }

  /** The C# conversion `(int)d`: truncation toward zero. */
  function Truncate(d: real): (n: int)
    ensures 0.0 <= d ==> 0 <= n && n as real <= d < n as real + 1.0
    ensures d < 0.0 ==> n <= 0 && n as real - 1.0 < d <= n as real
  {
    if 0.0 <= d then d.Floor else -((-d).Floor)
  }

  /** `JsonNumber.Int`: the number's double, truncated toward zero. */
  function Int(v: Value): (n: int)
    requires v.JsonNumber?
    ensures 0.0 <= v.double ==> 0 <= n && n as real <= v.double < n as real + 1.0
    ensures v.double < 0.0 ==> n <= 0 && n as real - 1.0 < v.double <= n as real
  {
    Truncate(v.double)
  }

  /** Truncation gives back every whole number, and it only drops the
      fractional part. */
  lemma TruncateWhole(n: int, f: real)
    requires 0.0 <= f < 1.0
    ensures Truncate(n as real) == n
    ensures 0 <= n ==> Truncate(n as real + f) == n
    ensures n <= 0 ==> Truncate(n as real - f) == n
  {
  }

  /** A number token with text "123" at line 1, column 321 gives a number
      whose integer value is 123 and whose position is (1, 321). */
  lemma NumberToIntExample(parseDouble: seq<CodeUnit> -> DoubleParse)
    requires parseDouble([0x31, 0x32, 0x33]) == Parsed(123.0)
    ensures var r := NewNumber(Token(Number, Some([0x31, 0x32, 0x33]), 1, 321), parseDouble);
            && r.Ok? && Int(r.value) == 123
            && r.value.position.line == 1 && r.value.position.column == 321
            && r.value.raw == [0x31, 0x32, 0x33]
  {
  }
}
