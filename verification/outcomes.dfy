/** Failure-carrying result types used by the ticket service. */
module Outcomes {

  /** A value that may be absent: the `undefined` of an unmatched `find`. */
  datatype Option<+T> = None | Some(value: T)

  /** Why a ticket operation reported failure instead of a value. */
  datatype Error =
    /** No ticket row matched: a missing position, a status with no match,
        or a delete that removed nothing. */
    | NotFound

  /** Either the value an operation produced or the error it reported. */
  datatype Result<+T> = Ok(value: T) | Err(error: Error)
}
