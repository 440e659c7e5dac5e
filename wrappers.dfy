/** Option, Result and the program's failure kinds. */
module Wrappers {

  datatype Option<T> = None | Some(value: T)

  datatype Result<T, E> = Ok(value: T) | Err(error: E)

  /** The outcome of a step that yields no value (a Python function returning None or raising). */
  datatype Outcome<E> = Pass | Fail(error: E)

  /**
   * The exceptions the program distinguishes. `InvalidVisualisation` and
   * `InvalidComparison` carry a full message (shown as a tooltip) and a short one
   * (shown in the item); every other exception the workers catch generically is
   * `Unexpected`, described by a short note of what raised it.
   */
  datatype Fault =
    | InvalidVisualisation(full: string, short: string)
    | InvalidComparison(full: string, short: string)
    | Unexpected(what: string)
}
