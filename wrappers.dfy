/** Failure-compatible wrappers shared by every module of the model. */
module Wrappers {

  /** A value that may be absent: JavaScript's `null` / `undefined` for a reference. */
  datatype Option<+T> = None | Some(value: T)

  /** The outcome of an operation that may throw: `Err` carries the message of the `Error`. */
  datatype Result<+T> = Ok(value: T) | Err(message: string) {
    predicate IsFailure() { Err? }
    function PropagateFailure<U>(): Result<U>
      requires Err?
    {
      Err(message)
    }
    function Extract(): T
      requires Ok?
    {
      value
    }
  }

  /**
   * The `TypeError` of reading a field of `undefined` or `null`: what the code
   * does where it finds a node of another kind, or none, in a place it expects one.
   */
  const ReadOfUndefined: string := "TypeError: cannot read properties of undefined"
}
