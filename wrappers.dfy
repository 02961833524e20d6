/** Option and Result, the two failure-carrying shapes the dashboard model needs. */
module Wrappers {

  /** A value that may be absent: a workbook that could not be read, a table not stored yet. */
  datatype Option<+T> = None | Some(value: T)

  /** The outcome of a step that can abort the render of one tab. */
  datatype Result<+T, +E> = Ok(value: T) | Err(error: E)
}
