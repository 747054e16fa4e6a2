/** Failure-carrying wrappers shared by the scheduler model.
    `Option` stands for the nullable columns and optional request fields;
    `Result` stands for a service call that either returns a value or throws. */
module Common {

  datatype Option<T> = None | Some(value: T) {

    /** The value, or `default` when absent (an entity column default). */
    function GetOr(default: T): T {
      match this
      case Some(v) => v
      case None => default
    }
  }

  datatype Result<T, E> = Ok(value: T) | Err(error: E)
}
