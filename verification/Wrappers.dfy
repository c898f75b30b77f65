/** Results of calls that may revert, and optional values. */
module Wrappers {

  datatype Option<+T> = None | Some(value: T)

  /** A reverted call undoes every state change; the message is the source's, "" when it has none. */
  datatype Result<+T> = Ok(value: T) | Revert(reason: string) {

    predicate IsFailure() {
      Revert?
    }

    function PropagateFailure<U>(): Result<U>
      requires Revert?
    {
      Revert(reason)
    }

    function Extract(): T
      requires Ok?
    {
      value
    }
  }
}
