/** Values that JavaScript code throws. */
module Thrown {
  /** An `Error` carries a message; any other thrown value is kept as the
      text `String(value)` renders for it. */
  datatype Thrown = Error(message: string) | NonError(text: string)

  /** `error instanceof Error ? error.message : String(error)`. */
  function MessageOf(e: Thrown): string
  {
    match e
    case Error(m) => m
    case NonError(t) => t
  }
}
