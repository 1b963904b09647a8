/** Optional values and the exceptions the account code can raise. */
module Outcomes {

  /** A value that may be absent: a Java reference or a database column that may be null. */
  datatype Option<+T> = None | Some(value: T)

  /** The exceptions that leave the modelled operations. */
  datatype Error =
    | UnexpectedRequest   // KeyshareException(KeyshareError.UNEXPECTED_REQUEST)
    | NullPointer         // unboxing a null database column
    | NumberFormat        // a stored key share that is not a hexadecimal number
    | CredentialLibrary   // InfoException / KeyException raised by the proof builder of the credential library

  /** The outcome of an operation that either returns a value or throws. */
  datatype Result<+T> = Ok(value: T) | Thrown(error: Error)
}
