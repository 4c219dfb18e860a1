/** The error of the older term model. */
module Errors {

  /** Raised only when a named node is built from a string the URI pattern rejects. */
  datatype Error = InvalidUriError(input: string)
}
