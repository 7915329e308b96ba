/** Present/absent values and the run's fatal errors. */
module Outcomes {

  /** A value that may be absent (Python's `None`). */
  datatype Option<+T> = None | Some(value: T)

  /** Why a step of the run raised instead of returning. */
  datatype Error =
    | MalformedMonth          // "YYYY-MM" did not split into two integers
    | IllegalMonth(month: int) // calendar.monthrange rejects a month outside 1..12
    | YearOutOfRange(year: int) // datetime.date rejects a year outside 1..9999
    | HttpStatus(code: int)   // raise_for_status on a 4xx/5xx reply other than 400

  /** The outcome of a step that either returns a value or raises. */
  datatype Result<+T> = Ok(value: T) | Err(error: Error)
}
