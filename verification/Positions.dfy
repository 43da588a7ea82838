/** Positions of the chosen elements of a sequence, in order. */
module Positions {

  ghost predicate Picks<T(!new)>(items: seq<T>, wanted: T -> bool, at: seq<nat>) {
    && (forall j, k :: 0 <= j < k < |at| ==> at[j] < at[k])
    && forall i: nat :: i in at <==> i < |items| && wanted(items[i])
  }

  // The elements at these positions, in order.
  ghost predicate TakenAt<T(!new)>(items: seq<T>, at: seq<nat>, taken: seq<T>) {
    |at| == |taken| && forall k :: 0 <= k < |at| ==> at[k] < |items| && taken[k] == items[at[k]]
  }

  function Shifted(at: seq<nat>): seq<nat> {
    seq(|at|, k requires 0 <= k < |at| => at[k] + 1)
  }

  lemma ShiftedHolds(at: seq<nat>, i: nat)
    ensures i in Shifted(at) <==> i > 0 && i - 1 in at
  {
    if k: nat :| k < |at| && at[k] == i - 1 {
      assert Shifted(at)[k] == i;
    }
  }

  lemma PicksShifted<T(!new)>(items: seq<T>, wanted: T -> bool, at: seq<nat>)
    requires items != [] && Picks(items[1..], wanted, at)
    ensures Picks(items, wanted, (if wanted(items[0]) then [0] else []) + Shifted(at))
  {
    var rest := items[1..];
    var all := (if wanted(items[0]) then [0] else []) + Shifted(at);
    forall i: nat
      ensures i in all <==> i < |items| && wanted(items[i])
    {
      ShiftedHolds(at, i);
      assert i in all <==> i in Shifted(at) || (i == 0 && wanted(items[0]));
      if 0 < i < |items| {
        assert items[i] == rest[i - 1];
      }
    }
  }

  lemma TakenShifted<T(!new)>(items: seq<T>, at: seq<nat>, taken: seq<T>, first: bool)
    requires items != [] && TakenAt(items[1..], at, taken)
    ensures TakenAt(items, (if first then [0] else []) + Shifted(at), (if first then [items[0]] else []) + taken)
  {
    assert forall k :: 0 <= k < |at| ==> items[1..][at[k]] == items[at[k] + 1];
  }
}
