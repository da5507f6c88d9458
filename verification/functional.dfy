/** The three Arrow data types the runtime is written against, as plain datatypes. */
module Functional {

  /** A list with at least one element: a head followed by a possibly empty tail. */
  datatype NonEmptyList<+T> = NonEmptyList(head: T, tail: seq<T>) {

    /** The elements in order, head first. */
    function ToSeq(): seq<T> {
      [head] + tail
    }
  }

  /** Arrow's `Validated`: an accumulated failure or a success. */
  datatype Validated<+E, +A> = Invalid(errors: E) | Valid(value: A)

  /** Arrow's `Either`; `Left` carries the failure. */
  datatype Either<+L, +R> = Left(left: L) | Right(right: R)
}
