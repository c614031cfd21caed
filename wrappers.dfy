/** Option and Result, used for the nullable cells of the input table and for
    the inputs on which the pipeline raises. */
module Wrappers {

  /** A cell that may hold a value or be missing (NaN / NaT in the table). */
  datatype Option<+T> = None | Some(value: T)

  /** The outcome of a stage that can raise. */
  datatype Result<+T, +E> = Ok(value: T) | Err(error: E)
}
