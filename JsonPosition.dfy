/** JsonPosition: an immutable (line, column) pair with structural equality. */
module JsonPosition {

  /** Line and column have no setter once built: a datatype value cannot change. */
  datatype Position = Position(line: int, column: int)

  /** The .NET `object` that `Equals` receives: a null reference, a
      position, or an object of any other class. */
  datatype Object = NullReference | PositionObject(position: Position) | OtherObject

  /** The constructor `JsonPosition(line, column)`. */
  function NewPosition(line: int, column: int): (p: Position)
    ensures p.line == line && p.column == column
  {
    Position(line, column)
  }

  /** `JsonPosition.Equals(object)`: same class, same line, same column. */
  function Equals(p: Position, obj: Object): (r: bool)
    ensures r <==> obj.PositionObject? && obj.position.line == p.line && obj.position.column == p.column
    ensures obj.NullReference? || obj.OtherObject? ==> !r
  {
    match obj
    case PositionObject(other) => other.line == p.line && other.column == p.column
    case _ => false
  }

  lemma EqualsReflexive(p: Position)
    ensures Equals(p, PositionObject(p))
  {
  }

  lemma EqualsSymmetric(p: Position, q: Position)
    ensures Equals(p, PositionObject(q)) <==> Equals(q, PositionObject(p))
  {
  }

  /** Equality of positions is exactly equality of the two coordinates. */
  lemma EqualsIsValueEquality(p: Position, q: Position)
    ensures Equals(p, PositionObject(q)) <==> p == q
  {
  }
}
