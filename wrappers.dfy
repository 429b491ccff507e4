/** Failure-carrying datatypes shared by the model: Rust's `Option<T>` and `Result<T, E>`. */
module Wrappers {

  /** Rust's `Option<T>`. */
  datatype Option<+T> = None | Some(value: T)

  /** Rust's `Result<T, E>`; the crate's own `Result<T>` is `Result<T, string>`. */
  datatype Result<+T, +E> = Ok(value: T) | Err(error: E)

  /** `Result::ok`: keeps the success value and drops the error. */
  function ToOption<T, E>(r: Result<T, E>): (o: Option<T>)
    ensures o.Some? <==> r.Ok?
    ensures o.Some? ==> o.value == r.value
  {
    match r
    case Ok(v) => Some(v)
    case Err(_) => None
  }
}
