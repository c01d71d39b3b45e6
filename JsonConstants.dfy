/** Character codes and literal names used by the JSON reader, and the
    UTF-16 code unit that the reader works on. */
module JsonConstants {

  /** One UTF-16 code unit, as a `TextReader` yields it (`char` in .NET). */
  type CodeUnit = x: int | 0 <= x < 0x1_0000

  /** What `TextReader.Read`/`Peek` return past the end of the input. */
  const EndOfInput: int := -1

  const CR: CodeUnit := 0x0D
  const LF: CodeUnit := 0x0A
  const SP: CodeUnit := 0x20
  const HT: CodeUnit := 0x09
  const FF: CodeUnit := 0x0C
  const BACKSPACE: CodeUnit := 0x08

  const LeftSquareBracket: CodeUnit := 0x5B   // '['
  const RightSquareBracket: CodeUnit := 0x5D  // ']'
  const LeftCurlyBracket: CodeUnit := 0x7B    // '{'
  const RightCurlyBracket: CodeUnit := 0x7D   // '}'

  const Colon: CodeUnit := 0x3A           // ':'
  const Comma: CodeUnit := 0x2C           // ','
  const Quotation: CodeUnit := 0x22       // '"'
  const ReverseSolidus: CodeUnit := 0x5C  // '\'
  const Solidus: CodeUnit := 0x2F         // '/'
  const FullStop: CodeUnit := 0x2E        // '.'

  const UpperE: CodeUnit := 0x45  // 'E'
  const LowerE: CodeUnit := 0x65  // 'e'
  const Minus: CodeUnit := 0x2D   // '-'

  /** "null", "true" and "false" as code units. */
  const ValueNull: seq<CodeUnit> := [0x6E, 0x75, 0x6C, 0x6C]
  const ValueTrue: seq<CodeUnit> := [0x74, 0x72, 0x75, 0x65]
  const ValueFalse: seq<CodeUnit> := [0x66, 0x61, 0x6C, 0x73, 0x65]

  /** `char.IsDigit`, restricted to the ASCII digits '0'..'9'. */
  predicate IsDigit(u: int) {
    0x30 <= u <= 0x39
  }
}
