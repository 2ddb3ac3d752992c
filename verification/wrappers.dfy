/** Small failure-carrying datatypes shared by every module of the model.

    JavaScript promises either resolve or reject with an `Error`; the model keeps
    only the error's `message`, since that is all the source ever inspects or
    re-wraps. */
module Wrappers {

  /** A nullable value: `None` stands for JavaScript `null` / `undefined`. */
  datatype Option<+T> = None | Some(value: T) {

    /** The wrapped value, or `default` when there is none (`x ?? default`). */
    function GetOr(default: T): T {
      match this
      case Some(v) => v
      case None => default
    }
  }

  /** A platform call that returns nothing: it resolves, or rejects with a message. */
  datatype Outcome = Pass | Fail(message: string)

  /** An operation that resolves with a value or rejects with an error message. */
  datatype Result<+T> = Ok(value: T) | Err(message: string)

  /** A key of a JavaScript options object: absent, or present with a value
      (which may itself be `null`, `0` or `false`). */
  datatype Key<+T> = Omitted | Given(value: T)
}
