/** Results of operations that can fail, and optional values. */
module Wrappers {

  datatype Option<+T> = None | Some(value: T)

  /** A value, or the stable code of the error the operation raises. */
  datatype Result<+T, +E> = Success(value: T) | Failure(error: E) {
    predicate IsFailure() {
      Failure?
    }

    function PropagateFailure<U>(): Result<U, E>
      requires Failure?
    {
      Failure(error)
    }

    function Extract(): T
      requires Success?
    {
      value
    }
  }

  /** What a loop still has to produce, put behind what it has already collected. */
  function Behind<T, E>(done: seq<T>, rest: Result<seq<T>, E>): Result<seq<T>, E> {
    if rest.Failure? then rest else Success(done + rest.value)
  }

  lemma BehindNothing<T, E>(rest: Result<seq<T>, E>)
    ensures Behind([], rest) == rest
  {
    if rest.Success? {
      var none: seq<T> := [];
      assert none + rest.value == rest.value;
    }
  }

  lemma BehindOne<T, E>(done: seq<T>, item: T, rest: Result<seq<T>, E>)
    ensures Behind(done + [item], rest) == Behind(done, Behind([item], rest))
  {
    if rest.Success? {
      assert done + [item] + rest.value == done + ([item] + rest.value);
    }
  }
}
