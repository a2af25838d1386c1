// The result types shared by the whole project.
module Wrappers {

  datatype Option<+T> = None | Some(value: T)

  /** Outcome of a call that may leave by a C++ exception. */
  datatype Outcome<+T> = Returned(value: T) | Thrown {
    predicate IsFailure() {
      Thrown?
    }

    function PropagateFailure<U>(): Outcome<U>
      requires Thrown?
    {
      Thrown
    }

    function Extract(): T
      requires Returned?
    {
      value
    }
  }
}
