/** The types of exception that cross the wire, and the tag each one has there. */
module RemoteExceptions {
  import opened Words

  datatype ExceptionType = Failed | Overloaded | Disconnected | Unimplemented

  /** The tag that Lean sends. */
  function Tag(exceptionType: ExceptionType): byte {
    match exceptionType
    case Failed => 0
    case Overloaded => 1
    case Disconnected => 2
    case Unimplemented => 3
  }

  /** How the runtime reads a tag. */
  function DecodeExceptionType(tag: byte): ExceptionType {
    match tag
    case 1 => Overloaded
    case 2 => Disconnected
    case 3 => Unimplemented
    case _ => Failed
  }

  /** Every type survives being sent, and what no type is sent as is read as a failure. */
  lemma ExceptionTypeRoundTrip(exceptionType: ExceptionType, tag: byte)
    ensures DecodeExceptionType(Tag(exceptionType)) == exceptionType
    ensures Tag(exceptionType) < 4
    ensures [Failed, Overloaded, Disconnected, Unimplemented][Tag(exceptionType)] == exceptionType
    ensures DecodeExceptionType(tag) == exceptionType <==>
              tag == Tag(exceptionType) || (exceptionType == Failed && tag > 3)
  {
  }
}
