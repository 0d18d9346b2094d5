/** Optional values, the service's error kinds, and the result of a request. */
module Outcomes {

  /** A lookup that may find nothing, as a query ending in `.first()` does. */
  datatype Option<+T> = None | Some(value: T)

  /** Every way a request can fail. `InvalidInput` stands for a request body
      that the schema layer rejects before the handler runs. */
  datatype Error =
    | InvalidInput
    | DuplicatePhone
    | DuplicateEmail
    | UserNotFound
    | OtpNotFound
    | OtpExpired
    | OtpMismatch
    | DailyCapExceeded
    | NoScoreToday
    | UserNotRankedToday

  datatype Result<+T> = Ok(value: T) | Err(error: Error)
}
