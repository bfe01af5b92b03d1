/** Failure-compatible wrappers shared by every module of the model.
    `Error` names the Java exception classes the story engine throws, with their messages. */
module Wrappers {

  /** A value that may be Java's `null`. */
  datatype Option<T> = None | Some(value: T)

  /** The unchecked exceptions of the source, by class. `IndexOutOfBounds` stands for
      `List.get`/`List.remove` out of range, `StringIndexOutOfBounds` for `charAt`/`deleteCharAt`
      out of range, `UnsupportedOperation` for a write to an immutable list, and
      `IllegalArgumentWithoutMessage` for an `IllegalArgumentException` whose message is `null`. */
  datatype Error =
    | IllegalArgument(msg: string)
    | IllegalArgumentWithoutMessage
    | IllegalState(msg: string)
    | IndexOutOfBounds
    | StringIndexOutOfBounds
    | UnsupportedOperation

  /** The result of a Java call that returns a value or throws. */
  datatype Result<T> = Success(value: T) | Failure(error: Error) {
    predicate IsFailure() {
      Failure?
    }

    function PropagateFailure<U>(): Result<U>
      requires Failure?
    {
      Failure(error)
    }

    function Extract(): T
      requires Success?
    {
      value
    }
  }

  /** The result of a Java call that returns `void` or throws. */
  datatype Outcome = Pass | Fail(error: Error) {
    predicate IsFailure() {
      Fail?
    }

    function PropagateFailure(): Outcome
      requires Fail?
    {
      this
    }
  }

  /** A parsed value together with the tokens a scanner has left after reading it. */
  datatype Parsed<T> = Parsed(value: T, rest: seq<string>)
}
