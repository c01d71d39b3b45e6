/** The errors the reader raises, and a Result type to carry them.
    `JsonDeserializerException` itself is not part of this model: an error
    is its kind, the detail the message would format, and its line and
    column. */
module JsonErrors {
  import opened JsonConstants
  import opened JsonToken

  datatype ErrorKind =
    | IllegalCharacter(unit: int)
    | UnrecognizedLiteral(literal: seq<CodeUnit>)
    | IllegalTrailingCharacter(tail: int, trailedLiteral: seq<CodeUnit>)
    | OpenString
    | InvalidUnicode(hex: seq<CodeUnit>)
    | BadEscape
    | AdditionalToken(tokenValue: Option<seq<CodeUnit>>)
    | UnexpectedToken(unexpectedValue: Option<seq<CodeUnit>>, unexpectedType: TokenType)
    | InvalidArrayEnd
    | InvalidArrayExpectComma
    | InvalidObject
    | InvalidMemberName
    | DuplicateMemberName(name: seq<CodeUnit>)
    | InvalidFloatFormat(raw: seq<CodeUnit>)
    | FloatOverflow(overflowRaw: seq<CodeUnit>)

  datatype Error =
    | JsonDeserializerError(kind: ErrorKind, line: int, column: int)
    | ArgumentNull(parameter: string)
    | ArgumentError(argument: string)

  /** The exception built from a token reports the token's position. */
  function ErrorAt(kind: ErrorKind, t: Token): Error {
    JsonDeserializerError(kind, t.line, t.column)
  }

  datatype Result<+T> = Ok(value: T) | Err(error: Error) {
    predicate IsFailure() {
      Err?
    }

    function PropagateFailure<U>(): Result<U>
      requires Err?
    {
      Err(error)
    }

    function Extract(): T
      requires Ok?
    {
      value
    }
  }
}
