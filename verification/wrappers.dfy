/** Option and Result, the shapes Go's `(value, error)` returns take in this model. */
module Wrappers {

  datatype Option<+T> = None | Some(value: T)

  /** The errors the converter core can report. */
  datatype Error =
    | PathOutsideVault     // getRelativePath: the file path does not start with the root path
    | CannotMakeRelative   // filepath.Rel refused the pair of paths

  datatype Result<+T> = Ok(value: T) | Err(error: Error)
}
