/** JsonDeserializer: a recursive-descent parser that pulls tokens from its
    `_buffer` field.  Each method is proved to do what the function of the
    same step in JsonDeserializerSpec says, starting from the buffer state
    it was called in. */
module JsonDeserializer {
  import opened JsonConstants
  import opened JsonPosition
  import opened JsonToken
  import opened JsonErrors
  import opened JsonBufferSpec
  import opened JsonBuffer
  import opened JsonPrimitive
  import Spec = JsonDeserializerSpec

  class JsonDeserializer {
    var buffer: JsonBuffer?
    /** The conversion `double.Parse(raw, NumberStyles.Float)`. */
    const parseDouble: seq<CodeUnit> -> DoubleParse

    constructor (parseDouble: seq<CodeUnit> -> DoubleParse)
      ensures this.parseDouble == parseDouble && buffer == null
    {
      this.parseDouble := parseDouble;
      buffer := null;
    }

    ghost predicate Ready()
      reads this, buffer
    {
      buffer != null && buffer.Valid()
    }

    /** `Deserialize(TextReader reader)`. */
    method Deserialize(reader: Option<seq<CodeUnit>>) returns (result: Result<Option<Value>>)
      modifies this
      ensures result == Spec.Deserialize(reader, parseDouble)
    {
      if reader.None? {
        return Err(ArgumentNull("reader"));
      }
      buffer := new JsonBuffer(reader.value);
      result := DeserializeBuffer();
    }

    /** `Deserialize()`: one value, then nothing but EOL. */
    method DeserializeBuffer() returns (result: Result<Option<Value>>)
      requires Ready()
      modifies buffer
      ensures Ready() && buffer == old(buffer)
      ensures result == Spec.DeserializeFrom(buffer.input, old(buffer.State()), parseDouble)
      ensures result.Ok? ==> buffer.pos == |buffer.input|
    {
      var first := buffer.Read();
      if first.Err? {
        return Err(first.error);
      }
      var value := DeserializeInternal(first.value);
      if value.Err? {
        return Err(value.error);
      }

      var nextToken := buffer.Read();
      if nextToken.Err? {
        return Err(nextToken.error);
      }
      if nextToken.value.tokenType != EOL {
        return Err(ErrorAt(AdditionalToken(nextToken.value.value), nextToken.value));
      }
      return Ok(value.value);
    }

    /** `DeserializeInternal(next)`: the value that starts with `next`. */
    method DeserializeInternal(next: Token) returns (result: Result<Option<Value>>)
      requires Ready() && Spec.FromRead(buffer.input, buffer.State(), next)
      modifies buffer
      ensures Ready()
      ensures result.Ok? ==>
                Spec.ParseValue(buffer.input, old(buffer.State()), next, parseDouble)
                == Ok(Spec.ValueRead(result.value, buffer.State()))
      ensures result.Err? ==>
                Spec.ParseValue(buffer.input, old(buffer.State()), next, parseDouble) == Err(result.error)
      ensures result.Ok? && result.value.None? ==> buffer.pos == |buffer.input|
      decreases |buffer.input| - buffer.pos, if next.tokenType == EOL then 0 else 3
    {
      if next.tokenType == EOL {
        return Ok(None);
      }

      if next.tokenType == TokenType.LeftSquareBracket {
        var arr := DeserializeArray(next);
        if arr.Err? {
          return Err(arr.error);
        }
        return Ok(Some(arr.value));
      }

      if next.tokenType == TokenType.LeftCurlyBracket {
        var obj := DeserializeObject(next);
        if obj.Err? {
          return Err(obj.error);
        }
        return Ok(Some(obj.value));
      }

      if next.tokenType == String {
        return Ok(Some(JsonString(next.value.value, GetPosition(next))));
      }

      if next.tokenType == True || next.tokenType == False {
        // a True or False token never makes the constructor throw
        return Ok(Some(NewBoolean(next).value));
      }

      if next.tokenType == Null {
        return Ok(Some(NewNull(GetPosition(next))));
      }

      if next.tokenType == Number {
        var n := NewNumber(next, parseDouble);
        if n.Err? {
          return Err(n.error);
        }
        return Ok(Some(n.value));
      }

      return Err(ErrorAt(UnexpectedToken(next.value, next.tokenType), next));
    }

    /** `DeserializeArray(head)`: the elements up to the closing `]`. */
    method DeserializeArray(head: Token) returns (result: Result<Value>)
      requires Ready()
      modifies buffer
      ensures Ready()
      ensures result.Ok? ==>
                Spec.ParseArrayLoop(buffer.input, old(buffer.State()), GetPosition(head), [], parseDouble)
                == Ok(Spec.ValueRead(Some(result.value), buffer.State()))
      ensures result.Err? ==>
                Spec.ParseArrayLoop(buffer.input, old(buffer.State()), GetPosition(head), [], parseDouble)
                == Err(result.error)
      decreases |buffer.input| - buffer.pos, 2
    {
      ghost var start := buffer.State();
      var list: seq<Value> := [];
      while true
        invariant Ready() && start.pos <= buffer.pos
        invariant Spec.ParseArrayLoop(buffer.input, buffer.State(), GetPosition(head), list, parseDouble)
                  == Spec.ParseArrayLoop(buffer.input, start, GetPosition(head), [], parseDouble)
        decreases |buffer.input| - buffer.pos
      {
        ghost var round := buffer.State();
        var next := buffer.Read();
        if next.Err? {
          return Err(next.error);
        }
        if next.value.tokenType == TokenType.RightSquareBracket {
          break;
        }

        var element := DeserializeArrayElement(round, GetPosition(head), list, next.value);
        if element.Err? {
          return Err(element.error);
        }
        list := list + [element.value.0];
        if element.value.1 {
          break;
        }
      }

      return Ok(JsonArray(list, GetPosition(head)));
    }

    /** The rest of one round of `DeserializeArray`'s loop after it read
        `next`: the element, then a `]` (the second result is true) or a
        `,` (false). */
    method DeserializeArrayElement(ghost round: Cursor, ghost head: Position, ghost items: seq<Value>, next: Token)
      returns (result: Result<(Value, bool)>)
      requires Ready() && Spec.FromRead(buffer.input, buffer.State(), next) && round.pos <= buffer.pos
      requires next.tokenType != EOL ==> round.pos < buffer.pos
      modifies buffer
      ensures Ready() && (result.Ok? ==> round.pos < buffer.pos)
      ensures result.Err? ==>
                Spec.ParseArrayElement(buffer.input, old(buffer.State()), round, head, items, next, parseDouble)
                == Err(result.error)
      ensures result.Ok? && result.value.1 ==>
                Spec.ParseArrayElement(buffer.input, old(buffer.State()), round, head, items, next, parseDouble)
                == Ok(Spec.ValueRead(Some(JsonArray(items + [result.value.0], head)), buffer.State()))
      ensures result.Ok? && !result.value.1 ==>
                Spec.ParseArrayElement(buffer.input, old(buffer.State()), round, head, items, next, parseDouble)
                == Spec.ParseArrayLoop(buffer.input, buffer.State(), head, items + [result.value.0], parseDouble)
      decreases |buffer.input| - round.pos, 1
    {
      var element := DeserializeInternal(next);
      if element.Err? {
        return Err(element.error);
      }

      var after := buffer.Read();
      if after.Err? {
        return Err(after.error);
      }
      if after.value.tokenType == EOL {
        return Err(ErrorAt(InvalidArrayEnd, after.value));
      } else if after.value.tokenType == TokenType.RightSquareBracket {
        return Ok((element.value.value, true));
      } else if after.value.tokenType != TokenType.Comma {
        return Err(ErrorAt(InvalidArrayExpectComma, after.value));
      }
      return Ok((element.value.value, false));
    }

    /** `DeserializeObject(head)`: the members up to the closing `}`. */
    method DeserializeObject(head: Token) returns (result: Result<Value>)
      requires Ready()
      modifies buffer
      ensures Ready()
      ensures result.Ok? ==>
                Spec.ParseObjectLoop(buffer.input, old(buffer.State()), GetPosition(head), map[], parseDouble)
                == Ok(Spec.ValueRead(Some(result.value), buffer.State()))
      ensures result.Err? ==>
                Spec.ParseObjectLoop(buffer.input, old(buffer.State()), GetPosition(head), map[], parseDouble)
                == Err(result.error)
      decreases |buffer.input| - buffer.pos, 2
    {
      ghost var start := buffer.State();
      var dictionary: map<seq<CodeUnit>, Value> := map[];
      while true
        invariant Ready() && start.pos <= buffer.pos
        invariant Spec.ParseObjectLoop(buffer.input, buffer.State(), GetPosition(head), dictionary, parseDouble)
                  == Spec.ParseObjectLoop(buffer.input, start, GetPosition(head), map[], parseDouble)
        decreases |buffer.input| - buffer.pos
      {
        ghost var round := buffer.State();
        var next := buffer.Read();
        if next.Err? {
          return Err(next.error);
        }
        if next.value.tokenType == EOL {
          return Err(ErrorAt(InvalidObject, next.value));
        }

        if next.value.tokenType == TokenType.Colon {
          return Err(ErrorAt(InvalidMemberName, next.value));
        } else if next.value.tokenType == TokenType.RightCurlyBracket {
          break;
        } else {
          if next.value.tokenType != String {
            return Err(ErrorAt(InvalidMemberName, next.value));
          }

          var memberName := next.value.value.value;
          if memberName in dictionary {
            return Err(ErrorAt(DuplicateMemberName(memberName), next.value));
          }

          var member := DeserializeMember(round, GetPosition(head), dictionary, memberName);
          if member.Err? {
            return Err(member.error);
          }
          dictionary := dictionary[memberName := member.value.0];
          if member.value.1 {
            break;
          }
        }
      }

      return Ok(JsonObject(dictionary, GetPosition(head)));
    }

    /** The rest of one round of `DeserializeObject`'s loop after it read
        the new name `memberName`: a colon, the value, then a `}` (the
        second result is true) or a `,` (false). */
    method DeserializeMember(ghost round: Cursor, ghost head: Position, ghost members: map<seq<CodeUnit>, Value>,
                             memberName: seq<CodeUnit>)
      returns (result: Result<(Value, bool)>)
      requires Ready() && round.pos < buffer.pos
      modifies buffer
      ensures Ready() && (result.Ok? ==> old(buffer.pos) <= buffer.pos)
      ensures result.Err? ==>
                Spec.ParseMember(buffer.input, old(buffer.State()), round, head, members, memberName, parseDouble)
                == Err(result.error)
      ensures result.Ok? && result.value.1 ==>
                Spec.ParseMember(buffer.input, old(buffer.State()), round, head, members, memberName, parseDouble)
                == Ok(Spec.ValueRead(Some(JsonObject(members[memberName := result.value.0], head)), buffer.State()))
      ensures result.Ok? && !result.value.1 ==>
                Spec.ParseMember(buffer.input, old(buffer.State()), round, head, members, memberName, parseDouble)
                == Spec.ParseObjectLoop(buffer.input, buffer.State(), head, members[memberName := result.value.0], parseDouble)
      decreases |buffer.input| - round.pos, 1
    {
      var next := buffer.Read();
      if next.Err? {
        return Err(next.error);
      }
      if next.value.tokenType != TokenType.Colon {
        return Err(ErrorAt(InvalidObject, next.value));
      }

      var valueToken := buffer.Read();
      if valueToken.Err? {
        return Err(valueToken.error);
      }
      var member := DeserializeInternal(valueToken.value);
      if member.Err? {
        return Err(member.error);
      }

      next := buffer.Read();
      if next.Err? {
        return Err(next.error);
      }
      if next.value.tokenType == TokenType.RightCurlyBracket {
        return Ok((member.value.value, true));
      } else if next.value.tokenType != TokenType.Comma {
        return Err(ErrorAt(InvalidObject, next.value));
      }
      return Ok((member.value.value, false));
    }
  }
}
