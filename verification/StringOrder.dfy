/** The order of strings by code points, and sets of strings in that order. */
module StringOrder {

  predicate Less(a: string, b: string) {
    if b == "" then false
    else if a == "" then true
    else a[0] < b[0] || (a[0] == b[0] && Less(a[1..], b[1..]))
  }

  lemma {:induction false} LessTotal(a: string, b: string)
    ensures a == b || Less(a, b) || Less(b, a)
  {
    if a != "" && b != "" && a[0] == b[0] {
      LessTotal(a[1..], b[1..]);
      assert a == [a[0]] + a[1..] && b == [b[0]] + b[1..];
    }
  }

  lemma {:induction false} LessIrreflexive(a: string)
    ensures !Less(a, a)
  {
    if a != "" {
      LessIrreflexive(a[1..]);
    }
  }

  lemma {:induction false} LessTransitive(a: string, b: string, c: string)
    requires Less(a, b) && Less(b, c)
    ensures Less(a, c)
  {
    if a != "" && a[0] == b[0] && b[0] == c[0] {
      LessTransitive(a[1..], b[1..], c[1..]);
    }
  }

  lemma LessAsymmetric(a: string, b: string)
    requires Less(a, b)
    ensures !Less(b, a) && a != b
  {
    LessIrreflexive(a);
    if Less(b, a) {
      LessTransitive(a, b, a);
    }
  }

  /** The order of code points: at the first difference, or by being a proper prefix. */
  lemma {:induction false} LessMeans(a: string, b: string)
    ensures Less(a, b) <==> exists n: nat :: FirstDifference(a, b, n)
  {
    if a != "" && b != "" && a[0] == b[0] {
      var restA, restB := a[1..], b[1..];
      LessMeans(restA, restB);
      if n: nat :| FirstDifference(restA, restB, n) {
        assert a[..n + 1] == [a[0]] + restA[..n] && b[..n + 1] == [b[0]] + restB[..n];
        assert FirstDifference(a, b, n + 1);
      }
      if n: nat :| FirstDifference(a, b, n) {
        assert n > 0;
        assert restA[..n - 1] == a[..n][1..] && restB[..n - 1] == b[..n][1..];
        assert FirstDifference(restA, restB, n - 1);
      }
    } else if Less(a, b) {
      assert FirstDifference(a, b, 0);
    } else {
      forall n: nat
        ensures !FirstDifference(a, b, n)
      {
        if n > 0 && n <= |a| && n <= |b| {
          assert a[..n][0] == a[0] && b[..n][0] == b[0];
        }
      }
    }
  }

  ghost predicate FirstDifference(a: string, b: string, n: nat) {
    && n <= |a| && n < |b| && a[..n] == b[..n]
    && (n < |a| ==> a[n] < b[n])
  }

  predicate Ascending(keys: seq<string>) {
    forall i, j :: 0 <= i < j < |keys| ==> Less(keys[i], keys[j])
  }

  predicate IsLeast(key: string, keys: set<string>) {
    key in keys && forall k :: k in keys && k != key ==> Less(key, k)
  }

  lemma LeastExists(keys: set<string>)
    requires keys != {}
    ensures exists least :: IsLeast(least, keys)
  {
    var first :| first in keys;
    if keys == {first} {
      assert IsLeast(first, keys);
    } else {
      LeastExists(keys - {first});
      var m :| IsLeast(m, keys - {first});
      LessTotal(first, m);
      var least := if Less(first, m) then first else m;
      forall k | k in keys && k != least
        ensures Less(least, k)
      {
        if least == first && k != m {
          LessTransitive(first, m, k);
        }
      }
      assert IsLeast(least, keys);
    }
  }

  lemma LeastUnique(keys: set<string>)
    ensures forall a, b :: IsLeast(a, keys) && IsLeast(b, keys) ==> a == b
  {
    forall a, b | IsLeast(a, keys) && IsLeast(b, keys)
      ensures a == b
    {
      if a != b {
        LessAsymmetric(a, b);
      }
    }
  }

  /** The keys in ascending order. */
  function Sorted(keys: set<string>): (r: seq<string>)
    ensures Ascending(r) && |r| == |keys|
    ensures forall k :: k in r <==> k in keys
  {
    if keys == {} then []
    else
      LeastExists(keys);
      LeastUnique(keys);
      var least :| IsLeast(least, keys);
      [least] + Sorted(keys - {least})
  }

  lemma AscendingTail(keys: seq<string>)
    requires Ascending(keys) && keys != []
    ensures Ascending(keys[1..]) && forall k :: k in keys[1..] ==> Less(keys[0], k) && k != keys[0]
  {
    forall i | 0 <= i < |keys| - 1
      ensures Less(keys[0], keys[1..][i]) && keys[1..][i] != keys[0]
    {
      LessAsymmetric(keys[0], keys[i + 1]);
    }
  }

  /** There is only one ascending list of given keys. */
  lemma {:induction false} AscendingUnique(a: seq<string>, b: seq<string>)
    requires Ascending(a) && Ascending(b)
    requires forall k :: k in a <==> k in b
    ensures a == b
  {
    if a == [] {
      assert forall i :: 0 <= i < |b| ==> b[i] in a;
    } else {
      assert a[0] in b;
      AscendingTail(a);
      AscendingTail(b);
      assert b[0] in a;
      if a[0] != b[0] {
        LessAsymmetric(a[0], b[0]);
      }
      assert forall k :: k in a <==> k == a[0] || k in a[1..];
      assert forall k :: k in b <==> k == b[0] || k in b[1..];
      AscendingUnique(a[1..], b[1..]);
      assert a == [a[0]] + a[1..] && b == [b[0]] + b[1..];
    }
  }
}
