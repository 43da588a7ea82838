/** Going through a list up to the first failure, with what happens to one element given as a relation. */
module Traversals {
  import opened Wrappers

  // Element k fails with the error, and no earlier one has to.
  ghost predicate FirstFailure<A(!new), B(!new), E(!new)>(items: seq<A>, means: (A, Result<B, E>) -> bool, k: nat, error: E) {
    && k < |items| && means(items[k], Failure(error))
    && forall j :: 0 <= j < k ==> Passes(means, items[j])
  }

  ghost predicate Passes<A(!new), B(!new), E(!new)>(means: (A, Result<B, E>) -> bool, item: A) {
    exists b :: means(item, Success(b))
  }

  // One result per element, in order, or the error of the first that fails.
  ghost predicate Traversed<A(!new), B(!new), E(!new)>(items: seq<A>, means: (A, Result<B, E>) -> bool, r: Result<seq<B>, E>) {
    if r.Success? then |r.value| == |items| && forall k :: 0 <= k < |items| ==> means(items[k], Success(r.value[k]))
    else exists k: nat :: FirstFailure(items, means, k, r.error)
  }

  lemma TraversedNone<A(!new), B(!new), E(!new)>(means: (A, Result<B, E>) -> bool)
    ensures Traversed([], means, Success([]))
  {
  }

  lemma TraversedFails<A(!new), B(!new), E(!new)>(items: seq<A>, means: (A, Result<B, E>) -> bool, error: E)
    requires items != [] && means(items[0], Failure(error))
    ensures Traversed(items, means, Failure(error))
  {
    assert FirstFailure(items, means, 0, error);
  }

  lemma TraversedNext<A(!new), B(!new), E(!new)>(items: seq<A>, means: (A, Result<B, E>) -> bool, first: B, rest: Result<seq<B>, E>)
    requires items != [] && means(items[0], Success(first)) && Traversed(items[1..], means, rest)
    ensures Traversed(items, means, if rest.Success? then Success([first] + rest.value) else rest)
  {
    if rest.Failure? {
      var k: nat :| FirstFailure(items[1..], means, k, rest.error);
      forall j | 0 <= j < k + 1
        ensures Passes(means, items[j])
      {
        assert j > 0 ==> items[1..][j - 1] == items[j];
      }
      assert FirstFailure(items, means, k + 1, rest.error);
    } else {
      assert forall k :: 0 < k < |items| ==> items[k] == items[1..][k - 1];
    }
  }
}
