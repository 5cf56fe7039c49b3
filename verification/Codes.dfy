/** gRPC status codes and the predicates that decide a retry. */
module Codes {
  datatype Code =
    | Ok | Cancelled | Unknown | InvalidArgument | DeadlineExceeded | NotFound | AlreadyExists | PermissionDenied
    | ResourceExhausted | FailedPrecondition | Aborted | OutOfRange | Unimplemented | Internal | Unavailable
    | DataLoss | Unauthenticated

  const CODES := [
    Ok, Cancelled, Unknown, InvalidArgument, DeadlineExceeded, NotFound, AlreadyExists, PermissionDenied,
    ResourceExhausted, FailedPrecondition, Aborted, OutOfRange, Unimplemented, Internal, Unavailable,
    DataLoss, Unauthenticated]

  /** A number outside the table is an unknown error, never a success. */
  function FromI32(code: int): Code {
    if 0 <= code < |CODES| then CODES[code] else Unknown
  }

  /** The numbers of the gRPC specification. */
  function NumberOf(code: Code): nat {
    match code
    case Ok => 0
    case Cancelled => 1
    case Unknown => 2
    case InvalidArgument => 3
    case DeadlineExceeded => 4
    case NotFound => 5
    case AlreadyExists => 6
    case PermissionDenied => 7
    case ResourceExhausted => 8
    case FailedPrecondition => 9
    case Aborted => 10
    case OutOfRange => 11
    case Unimplemented => 12
    case Internal => 13
    case Unavailable => 14
    case DataLoss => 15
    case Unauthenticated => 16
  }

  /** A number is read as the code it belongs to, and as an unknown error if it belongs to none. */
  lemma {:induction false} NumbersAreRead(number: int, code: Code)
    ensures FromI32(number) == code <==>
      NumberOf(code) == number || (code == Unknown && !exists other: Code :: NumberOf(other) == number)
  {
    if 0 <= number <= 16 {
      assert NumberOf(CODES[number]) == number;
      assert NumberOf(code) == number ==> code == CODES[number];
    }
  }

  /** What a read may be resumed after. */
  predicate IsRetryable(code: Code) {
    code.Cancelled? || code.DeadlineExceeded? || code.Unavailable? || code.Aborted?
  }

  /** What a mutation may be sent again after. */
  predicate IsMutateRetryable(code: Code) {
    code.DeadlineExceeded? || code.Unavailable?
  }
}
