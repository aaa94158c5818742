/** Optional values and failures shared by every module of the model. */
module Wrappers {

  /** A possibly missing value. `None` stands for a pandas null (NaN, NaT or None). */
  datatype Option<T> = None | Some(value: T)

  /** The exceptions of the modelled code that end an operation without a result. */
  datatype Failure =
    | MissingColumn   // pandas KeyError: a selected column is not in the frame
    | EmptySeries     // pandas ValueError: date_range started from NaT (no history)

  datatype Result<T> = Ok(value: T) | Err(failure: Failure)
}
