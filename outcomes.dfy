/** Optional values and the outcome of an operation that can throw. */
module Outcomes {

  datatype Option<T> = None | Some(value: T)

  /** What the fill can throw: a radio group asked to select a value that is not among
      its options, or a TypeError from String(value) on a value that has no string form
      (an object with its own toString member, or an array holding one). */
  datatype Error =
    | SelectionError(field: string, option: string)
    | ConversionError(field: string)

  datatype Result<T> = Ok(value: T) | Err(error: Error)
}
