/** Failure-compatible result type shared by every module of the model.

    The C# code signals failure by throwing. Each distinct throw site of the
    modelled core gets its own `Error` constructor, so that contracts can say
    which failure a member raises and when.
 */
module Wrappers {

  /** The exceptions the modelled code can raise. */
  datatype Error =
    | Truncated                    // a read needs more bytes than remain
    | NegativeCount                // ReadBytes with a negative count
    | NegativeLength               // ReadString saw a negative i16 length
    | FixedStringOverflow          // WriteFixedSizeString: bytes + 1 > width
    | UnknownMovementCode(code: int)
    | UnexpectedOpcode(opcode: int)
    | SocketClosed                 // GameSession.Tick on a completed inbound channel
    | UnknownMessage               // an actor received a message type it does not handle
    | DuplicateKey                 // Dictionary.Add with a key already present
    | InvalidAction                // an NPC prompt received a mismatching action
    | SlotFull                     // Resume while the capacity-1 slot still holds an action
    | UndefinedEnumValue(value: int) // a client read an enum byte that names no member

  datatype Option<+T> = None | Some(value: T)

  datatype Result<+T> = Ok(value: T) | Err(error: Error) {

    predicate IsFailure() {
      Err?
    }

    function PropagateFailure<U>(): Result<U>
      requires Err?
    {
      Err(error)
    }

    function Extract(): T
      requires Ok?
    {
      value
    }
  }
}
