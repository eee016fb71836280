/** Small value wrappers shared by every module of the model. */
module Common {

  /** A value that may be absent: SQL NULL or a JavaScript `undefined`. */
  datatype Option<T> = None | Some(value: T) {
    function GetOr(default: T): T {
      match this
      case Some(v) => v
      case None => default
    }
  }

  /** The outcome of a store operation whose callback may receive an error. */
  datatype Result<T, E> = Ok(value: T) | Err(error: E)

  /** Errors the SQLite store reports to callbacks. */
  datatype StoreError =
    | ConstraintViolation   // a CHECK or NOT NULL constraint rejected the statement
    | IoFailure             // any other failure of the database

  /** A JavaScript string is truthy when it is present and not empty. */
  predicate Truthy(s: Option<string>) {
    s.Some? && s.value != ""
  }
}
