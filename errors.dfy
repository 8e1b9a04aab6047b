/**
  The error kinds of the renderer and the Result/Option wrappers its fallible
  operations return. Floating-point payloads are idealised as `real`.
 */
module Errors {

  /** The renderer's error kinds (src/lib.rs), plus the two the argument decoders use. */
  datatype Error =
    | InvalidParam(val: real, reason: string)
    | OutOfRange(val: real, min: real, max: real)
    | ParseError(text: string, reason: string)
      /** Rust's `std::num::ParseIntError`, linked in as a foreign error; its kind is not modelled. */
    | ParseIntError
      /** An option that has no value at all (used by src/args.rs). */
    | MissingParam(name: string)

  /** `Result<T>` of the renderer's error module: a value or an `Error`. */
  datatype Result<+T> = Ok(value: T) | Err(error: Error) {

    predicate IsFailure() {
      Err?
    }

    function PropagateFailure<U>(): Result<U>
      requires Err?
    {
      Err(error)
    }

    function Extract(): T
      requires Ok?
    {
      value
    }
  }

  datatype Option<+T> = None | Some(value: T)
}
