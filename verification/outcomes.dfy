/**
 The failure-carrying datatypes shared by every module of the model.

 The scripts signal trouble in two ways: by an absent value (`undefined`,
 modelled as `None`) and by a JavaScript exception (a `TypeError` when a
 property of `undefined` is read, modelled as `Err`). `Result` supports the
 `:-` operator so that an exception propagates exactly as `throw` would.
 */
module Outcomes {

  datatype Option<+T> = None | Some(value: T) {
    /** The value, or `default` when absent (JavaScript's `??`). */
    function GetOr(default: T): T {
      match this
      case Some(v) => v
      case None => default
    }
  }

  /** Why a script throws. */
  datatype Error =
    /** `select(path, doc)[0].textContent` (or `.item(0).textContent`) on an empty match. */
    | MissingNode(path: seq<string>)
    /** An absolute XPath evaluated without a context node. */
    | NoContextNode(path: seq<string>)
    /** A string method called on a value that is not a string. */
    | NotAString(name: string)
    /** A `for … of` loop over a value that is not iterable (`undefined`). */
    | NotIterable(name: string)
    /** Reading or parsing a file failed. */
    | LoadFailed(file: string)

  datatype Result<+T> = Ok(value: T) | Err(error: Error) {
    predicate IsFailure() {
      Err?
    }

    function PropagateFailure<U>(): Result<U>
      requires Err?
    {
      Err(error)
    }

    function Extract(): T
      requires Ok?
    {
      value
    }
  }
}
