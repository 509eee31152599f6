/** Values that may be missing, and calls that may throw. */
module Wrappers {
  datatype Option<+T> = None | Some(value: T)

  /** A call that returns a value or throws; `:-` propagates the throw. */
  datatype Result<+T> = Ok(value: T) | Thrown(reason: string) {
    predicate IsFailure() {
      Thrown?
    }

    function PropagateFailure<U>(): Result<U>
      requires Thrown?
    {
      Thrown(reason)
    }

    function Extract(): T
      requires Ok?
    {
      value
    }
  }

  /** How a step of a protocol ends; `:-` passes failures and crashes on. */
  datatype Step = Done | Failed | Crashed {
    predicate IsFailure() {
      !Done?
    }

    function PropagateFailure(): Step
      requires IsFailure()
    {
      this
    }
  }
}
