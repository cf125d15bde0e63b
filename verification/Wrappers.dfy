/** Failure-compatible results shared by every model in this project. */
module Wrappers {

  datatype Option<+T> = None | Some(value: T)

  /** A Rust `Result<(), E>`: usable with `:-`. */
  datatype Outcome<+E> = Pass | Fail(error: E) {

    predicate IsFailure() {
      Fail?
    }

    function PropagateFailure(): Outcome<E>
      requires Fail?
    {
      this
    }
  }

  /** A Rust `Result<T, E>`: usable with `:-`. */
  datatype Result<+T, +E> = Success(value: T) | Failure(error: E) {

    predicate IsFailure() {
      Failure?
    }

    function PropagateFailure<U>(): Result<U, E>
      requires Failure?
    {
      Failure(error)
    }

    function Extract(): T
      requires Success?
    {
      value
    }
  }

  /** `after` is `before` with `x` pushed onto its end. */
  ghost predicate Appended<T>(before: seq<T>, after: seq<T>, x: T) {
    var ok := |after| == |before| + 1 && after[..|before|] == before && after[|before|] == x;
    ok
  }

  lemma AppendedIs<T>(before: seq<T>, after: seq<T>, x: T)
    requires Appended(before, after, x)
    ensures after == before + [x]
  {
  }
}
