/** Failure-carrying values shared by the player model.

    The player reports both construction errors as an `IOException` with a
    distinct message; here each message becomes its own `Error` constructor.
    A read that reaches the end of the file is an `Option` that is `None`,
    instead of the exception the stream API throws. */
module Outcomes {

  /** Why constructing a player failed. */
  datatype Error =
    | TruncatedSource    // the backing file is shorter than a header
    | InvalidHeaderSize  // a raw header buffer whose length is not exactly 44

  datatype Option<+T> = None | Some(value: T)

  datatype Result<+T> = Success(value: T) | Failure(error: Error)
}
