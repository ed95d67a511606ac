/** Result and error types shared by the charge-simulator model. */
module Wrappers {

  datatype Option<+T> = None | Some(value: T)

  datatype Result<+R, +E> = Success(value: R) | Failure(error: E)

  /** The ways one simulation run can fail; each aborts the whole run. */
  datatype Error =
    | InvalidTimeFormat        // a return or departure time is not "<int>:<int>"
    | InsufficientBaselineData // the base-load series is empty (96 // 0)
    | BaselineLengthMismatch   // the resampled base load does not have 96 rows
    | IntervalOutsideHorizon   // a non-empty charging window leaves intervals 0..95
}
