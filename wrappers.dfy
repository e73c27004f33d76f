/** Option and the shape of a server answer, shared by every module of the model. */
module Wrappers {

  /** An optional value: `undefined`/`null` in the source becomes `None`. */
  datatype Option<+T> = None | Some(value: T) {

    /** The value, or `default` when there is none (the `??` and default-parameter idiom). */
    function GetOr(default: T): T
    {
      match this
      case Some(v) => v
      case None => default
    }
  }

  /**
   * The outcome of an awaited server call that the model cannot see:
   * it either resolves with a payload or rejects, possibly with a
   * server-provided message (`error.response.data.message`).
   */
  datatype Answer<+T> = Resolved(payload: T) | Rejected(message: Option<string>)
}
