/** Rust's `Option` and `Result`, as used by the model. */
module Wrappers {

  datatype Option<+T> = None | Some(value: T)

  datatype Result<+T, +E> = Ok(value: T) | Err(error: E) {

    /** Rust's `Result::ok`: forgets the error. */
    function ToOption(): (r: Option<T>)
      ensures r.Some? <==> this.Ok?
      ensures r.Some? ==> r.value == this.value
    {
      match this
      case Ok(v) => Some(v)
      case Err(_) => None
    }
  }
}
