/** Bodies inside `not`: what they find is exactly the extensions that satisfy all their atoms. */
module BodyMeaning {
  import opened Wrappers
  import opened WhereEval
  import opened Seeding
  import opened SeededBranches
  import opened Semantics
  import opened AtomMeaning

  function BoundBefore(body: seq<Simple>, bound: set<string>, k: nat): set<string>
    requires k <= |body|
  {
    bound + BodyVars(body[..k])
  }

  ghost predicate SolvesBodyAt(view: View, body: seq<Simple>, bound: set<string>, x: Env, j: nat)
    requires j < |body|
  {
    Satisfies(view, x, body[j]) && BindsInteger(body[j], BoundBefore(body, bound, j), x)
  }

  /** x extends u by the variables of the first k atoms and satisfies these atoms. */
  ghost predicate SolvesBody(view: View, body: seq<Simple>, u: Env, x: Env, k: nat)
    requires k <= |body|
  {
    && Extends(u, x) && x.Keys == BoundBefore(body, u.Keys, k)
    && forall j :: 0 <= j < k ==> SolvesBodyAt(view, body, u.Keys, x, j)
  }

  // Some atom raises on an extension that satisfies the atoms before it.
  ghost predicate BodyRaises(view: View, body: seq<Simple>, u: Env) {
    exists k: nat :: RaisesAtAtom(view, body, u, k)
  }

  ghost predicate RaisesAtAtom(view: View, body: seq<Simple>, u: Env, k: nat) {
    k < |body| && exists x :: SolvesBody(view, body, u, x, k) && RaisesOn(view, x, body[k])
  }

  // The validator's condition on a body, atom by atom.
  ghost predicate BodyAdmitted(body: seq<Simple>, bound: set<string>) {
    body != [] && forall k :: 0 <= k < |body| ==> Admitted(body[k], BoundBefore(body, bound, k))
  }

  // ---------- bodies from their prefixes ----------

  lemma {:induction false} EvalSimpleSnoc(view: View, envs: seq<Env>, prefix: seq<Simple>, a: Simple)
    ensures EvalSimple(view, envs, prefix + [a])
         == var f := EvalSimple(view, envs, prefix); if f.Failure? then f else ExtendAll(view, f.value, a)
    decreases |prefix|
  {
    var all := prefix + [a];
    if envs == [] {
    } else if prefix == [] {
      assert all[1..] == [];
    } else {
      assert all[1..] == prefix[1..] + [a];
      var next := ExtendAll(view, envs, prefix[0]);
      if next.Success? {
        EvalSimpleSnoc(view, next.value, prefix[1..], a);
      }
    }
  }

  lemma {:induction false} ExtendAllElements(view: View, envs: seq<Env>, a: Simple)
    ensures ExtendAll(view, envs, a).Success? <==> forall e :: e in envs ==> Extend(view, e, a).Success?
    ensures ExtendAll(view, envs, a).Success? ==>
      forall x :: x in ExtendAll(view, envs, a).value <==> exists e :: e in envs && x in Extend(view, e, a).value
  {
    if envs != [] {
      ExtendAllElements(view, envs[1..], a);
      assert forall e :: e in envs <==> e == envs[0] || e in envs[1..];
    }
  }

  lemma {:induction false} SafeBodyAt(body: seq<Simple>, bound: set<string>, k: nat)
    requires SafeBody(body, bound) && k < |body|
    ensures SafeAtom(body[k], BoundBefore(body, bound, k))
  {
    if k == 0 {
      assert BoundBefore(body, bound, 0) == bound;
    } else {
      var bound' := bound + SimpleVars(body[0]);
      SafeBodyAt(body[1..], bound', k - 1);
      assert body[1..][k - 1] == body[k];
      assert body[..k][1..] == body[1..][..k - 1];
      BodyVarsCons(body[..k]);
      assert BoundBefore(body, bound, k) == BoundBefore(body[1..], bound', k - 1);
    }
  }

  lemma {:induction false} SafeBodyFrom(body: seq<Simple>, bound: set<string>)
    requires forall k :: 0 <= k < |body| ==> SafeAtom(body[k], BoundBefore(body, bound, k))
    ensures SafeBody(body, bound)
  {
    if body != [] {
      var rest, bound' := body[1..], bound + SimpleVars(body[0]);
      assert BoundBefore(body, bound, 0) == bound;
      forall k | 0 <= k < |rest|
        ensures SafeAtom(rest[k], BoundBefore(rest, bound', k))
      {
        assert rest[k] == body[k + 1] && body[..k + 1][1..] == rest[..k];
        BodyVarsCons(body[..k + 1]);
        assert BoundBefore(body, bound, k + 1) == BoundBefore(rest, bound', k);
      }
      SafeBodyFrom(rest, bound');
    }
  }

  lemma BodyAdmittedExactly(body: seq<Simple>, bound: set<string>)
    ensures BodyAdmitted(body, bound) <==> body != [] && SafeBody(body, bound)
  {
    forall k | 0 <= k < |body|
      ensures Admitted(body[k], BoundBefore(body, bound, k)) <==> SafeAtom(body[k], BoundBefore(body, bound, k))
    {
      SafeMeansAdmitted(body[k], BoundBefore(body, bound, k));
    }
    if BodyAdmitted(body, bound) {
      SafeBodyFrom(body, bound);
    }
    if SafeBody(body, bound) {
      forall k | 0 <= k < |body|
        ensures SafeAtom(body[k], BoundBefore(body, bound, k))
      {
        SafeBodyAt(body, bound, k);
      }
    }
  }

  lemma {:induction false} SafeBodyMore(body: seq<Simple>, bound: set<string>, more: set<string>)
    requires SafeBody(body, bound) && bound <= more
    ensures SafeBody(body, more)
  {
    if body != [] {
      SafeBodyMore(body[1..], bound + SimpleVars(body[0]), more + SimpleVars(body[0]));
    }
  }

  lemma BoundAfter(body: seq<Simple>, bound: set<string>, k: nat)
    requires k < |body|
    ensures BoundBefore(body, bound, k + 1) == BoundBefore(body, bound, k) + SimpleVars(body[k])
  {
    assert body[..k + 1] == body[..k] + [body[k]];
    assert forall a :: a in body[..k + 1] <==> a in body[..k] || a == body[k];
  }

  lemma EarlierBound(body: seq<Simple>, bound: set<string>, j: nat, k: nat)
    requires j < k <= |body|
    ensures SimpleVars(body[j]) <= BoundBefore(body, bound, k)
    ensures BoundBefore(body, bound, j) <= BoundBefore(body, bound, k)
  {
    assert body[j] in body[..k];
    assert forall a :: a in body[..j] ==> a in body[..k];
  }

  lemma SolvesBodyAtLocal(view: View, body: seq<Simple>, bound: set<string>, u: Env, x: Env, j: nat)
    requires j < |body| && Extends(u, x) && SimpleVars(body[j]) <= u.Keys
    ensures SolvesBodyAt(view, body, bound, u, j) <==> SolvesBodyAt(view, body, bound, x, j)
  {
    SatisfiesLocal(view, u, x, body[j]);
  }

  // One atom further, from an environment that solves the atoms so far.
  lemma SolvesBodyStep(view: View, body: seq<Simple>, u: Env, y: Env, x: Env, k: nat)
    requires k < |body| && SolvesBody(view, body, u, y, k)
    requires Extends(y, x) && x.Keys == y.Keys + SimpleVars(body[k]) && SolvesBodyAt(view, body, u.Keys, x, k)
    ensures SolvesBody(view, body, u, x, k + 1)
  {
    BoundAfter(body, u.Keys, k);
    forall j | 0 <= j < k + 1
      ensures SolvesBodyAt(view, body, u.Keys, x, j)
    {
      if j < k {
        EarlierBound(body, u.Keys, j, k);
        SolvesBodyAtLocal(view, body, u.Keys, y, x, j);
      }
    }
  }

  lemma SolvesBodyBack(view: View, body: seq<Simple>, u: Env, x: Env, k: nat) returns (y: Env)
    requires k < |body| && SolvesBody(view, body, u, x, k + 1)
    ensures SolvesBody(view, body, u, y, k) && Extends(y, x) && x.Keys == y.Keys + SimpleVars(body[k])
    ensures SolvesBodyAt(view, body, u.Keys, x, k)
  {
    var bound := BoundBefore(body, u.Keys, k);
    BoundAfter(body, u.Keys, k);
    y := Restrict(x, bound);
    assert y.Keys == bound;
    forall j | 0 <= j < k
      ensures SolvesBodyAt(view, body, u.Keys, y, j)
    {
      EarlierBound(body, u.Keys, j, k);
      SolvesBodyAtLocal(view, body, u.Keys, y, x, j);
    }
  }

  /** The frontier before atom k: exactly the extensions that solve the atoms before it. */
  lemma {:induction false} BodyPrefixExact(view: View, u: Env, body: seq<Simple>, k: nat)
    requires SafeBody(body, u.Keys) && k <= |body| && EvalSimple(view, [u], body[..k]).Success?
    ensures forall x :: x in EvalSimple(view, [u], body[..k]).value <==> SolvesBody(view, body, u, x, k)
  {
    if k == 0 {
      assert body[..0] == [];
      forall x
        ensures SolvesBody(view, body, u, x, 0) <==> x == u
      {
        SameEnv(u, x);
        assert BoundBefore(body, u.Keys, 0) == u.Keys;
      }
    } else {
      assert body[..k] == body[..k - 1] + [body[k - 1]];
      EvalSimpleSnoc(view, [u], body[..k - 1], body[k - 1]);
      BodyPrefixExact(view, u, body, k - 1);
      var before := EvalSimple(view, [u], body[..k - 1]).value;
      ExtendAllElements(view, before, body[k - 1]);
      forall x
        ensures x in EvalSimple(view, [u], body[..k]).value <==> SolvesBody(view, body, u, x, k)
      {
        BodyStepExact(view, u, body, k - 1, before, x);
      }
    }
  }

  lemma BodyStepExact(view: View, u: Env, body: seq<Simple>, k: nat, before: seq<Env>, x: Env)
    requires SafeBody(body, u.Keys) && k < |body|
    requires forall y :: y in before <==> SolvesBody(view, body, u, y, k)
    requires forall y :: y in before ==> Extend(view, y, body[k]).Success?
    ensures (exists y :: y in before && x in Extend(view, y, body[k]).value) <==> SolvesBody(view, body, u, x, k + 1)
  {
    SafeBodyAt(body, u.Keys, k);
    if y :| y in before && x in Extend(view, y, body[k]).value {
      StepExact(view, y, body[k], x);
      SolvesBodyStep(view, body, u, y, x, k);
    }
    if SolvesBody(view, body, u, x, k + 1) {
      var y := SolvesBodyBack(view, body, u, x, k);
      StepExact(view, y, body[k], x);
      assert y in before;
    }
  }

  lemma BodyStepRaises(view: View, u: Env, body: seq<Simple>, k: nat, before: seq<Env>)
    requires SafeBody(body, u.Keys) && k < |body|
    requires forall y :: y in before <==> SolvesBody(view, body, u, y, k)
    ensures ExtendAll(view, before, body[k]).Failure? <==> RaisesAtAtom(view, body, u, k)
  {
    ExtendAllElements(view, before, body[k]);
    SafeBodyAt(body, u.Keys, k);
    forall y | y in before
      ensures Extend(view, y, body[k]).Failure? <==> RaisesOn(view, y, body[k])
    {
      StepRaises(view, y, body[k]);
    }
  }

  ghost predicate RaisesBefore(view: View, body: seq<Simple>, u: Env, k: nat) {
    k > 0 && (RaisesBefore(view, body, u, k - 1) || RaisesAtAtom(view, body, u, k - 1))
  }

  lemma {:induction false} RaisesSomewhere(view: View, body: seq<Simple>, u: Env, k: nat)
    ensures RaisesBefore(view, body, u, k) <==> exists j: nat :: j < k && RaisesAtAtom(view, body, u, j)
  {
    if k > 0 {
      RaisesSomewhere(view, body, u, k - 1);
    }
  }

  lemma PrefixStep(view: View, u: Env, body: seq<Simple>, k: nat, f: Envs)
    requires SafeBody(body, u.Keys) && k < |body| && f == EvalSimple(view, [u], body[..k])
    ensures EvalSimple(view, [u], body[..k + 1]).Failure? <==> f.Failure? || RaisesAtAtom(view, body, u, k)
  {
    assert body[..k + 1] == body[..k] + [body[k]];
    EvalSimpleSnoc(view, [u], body[..k], body[k]);
    if f.Success? {
      BodyPrefixExact(view, u, body, k);
      BodyStepRaises(view, u, body, k, f.value);
    }
  }

  /** Evaluation raises exactly if an atom raises on an extension that solves the atoms before it. */
  lemma {:induction false} BodyPrefixRaises(view: View, u: Env, body: seq<Simple>, k: nat)
    requires SafeBody(body, u.Keys) && k <= |body|
    ensures EvalSimple(view, [u], body[..k]).Failure? <==> RaisesBefore(view, body, u, k)
  {
    if k == 0 {
      assert body[..0] == [];
    } else {
      var f := EvalSimple(view, [u], body[..k - 1]);
      PrefixStep(view, u, body, k - 1, f);
      BodyPrefixRaises(view, u, body, k - 1);
    }
  }

  // ---------- negation ----------

  // The body has a satisfying extension of u.
  ghost predicate Extensible(view: View, body: seq<Simple>, u: Env) {
    exists x :: SolvesBody(view, body, u, x, |body|)
  }

  // With several alternatives, one of them leaves out a bound variable that another one uses.
  ghost predicate Uncorrelated(u: Env, bodies: seq<seq<Simple>>) {
    |bodies| > 1 && exists x, b, c :: x in u && b in bodies && c in bodies && x in BodyVars(b) && x !in BodyVars(c)
  }

  // The alternatives are tried in order, up to the first that is extensible.
  ghost predicate AlternativeRaises(view: View, bodies: seq<seq<Simple>>, u: Env, j: nat) {
    j < |bodies| && BodyRaises(view, bodies[j], u) && forall i :: 0 <= i < j ==> !Extensible(view, bodies[i], u)
  }

  ghost predicate NotRaises(view: View, bodies: seq<seq<Simple>>, u: Env) {
    Uncorrelated(u, bodies) || exists j :: AlternativeRaises(view, bodies, u, j)
  }

  ghost predicate NoneExtensible(view: View, bodies: seq<seq<Simple>>, u: Env) {
    forall i :: 0 <= i < |bodies| ==> !Extensible(view, bodies[i], u)
  }

  lemma BodyExact(view: View, u: Env, body: seq<Simple>)
    requires SafeBody(body, u.Keys)
    ensures EvalSimple(view, [u], body).Failure? <==> BodyRaises(view, body, u)
    ensures EvalSimple(view, [u], body).Success? ==> (EvalSimple(view, [u], body).value != [] <==> Extensible(view, body, u))
  {
    assert body[..|body|] == body;
    BodyPrefixRaises(view, u, body, |body|);
    RaisesSomewhere(view, body, u, |body|);
    if EvalSimple(view, [u], body).Success? {
      BodyPrefixExact(view, u, body, |body|);
      var found := EvalSimple(view, [u], body).value;
      assert found != [] ==> found[0] in found;
    }
  }

  lemma AlternativeLater(view: View, bodies: seq<seq<Simple>>, u: Env, j: nat)
    requires bodies != [] && !Extensible(view, bodies[0], u)
    ensures AlternativeRaises(view, bodies, u, j + 1) <==> AlternativeRaises(view, bodies[1..], u, j)
  {
    var rest := bodies[1..];
    assert forall i :: 0 <= i < |rest| ==> rest[i] == bodies[i + 1];
    if AlternativeRaises(view, rest, u, j) {
      forall i | 0 <= i < j + 1
        ensures !Extensible(view, bodies[i], u)
      {
        assert i > 0 ==> rest[i - 1] == bodies[i];
      }
    }
  }

  lemma {:induction false} AlternativesExact(view: View, u: Env, bodies: seq<seq<Simple>>)
    requires forall b :: b in bodies ==> SafeBody(b, u.Keys)
    ensures SomeBodyHolds(view, u, bodies).Failure? <==> exists j: nat :: AlternativeRaises(view, bodies, u, j)
    ensures SomeBodyHolds(view, u, bodies).Success? ==>
      (SomeBodyHolds(view, u, bodies).value <==> !NoneExtensible(view, bodies, u))
  {
    if bodies != [] {
      assert bodies[0] in bodies;
      BodyExact(view, u, bodies[0]);
      var found := EvalSimple(view, [u], bodies[0]);
      if found.Failure? {
        assert AlternativeRaises(view, bodies, u, 0);
      } else if found.value != [] {
        assert Extensible(view, bodies[0], u);
        assert forall j: nat :: AlternativeRaises(view, bodies, u, j) ==> j == 0;
      } else {
        AlternativesExact(view, u, bodies[1..]);
        NoneExtensibleCons(view, bodies, u);
        if j: nat :| AlternativeRaises(view, bodies, u, j) {
          assert j != 0;
          AlternativeLater(view, bodies, u, j - 1);
        }
        if j: nat :| AlternativeRaises(view, bodies[1..], u, j) {
          AlternativeLater(view, bodies, u, j);
        }
      }
    }
  }

  lemma NoneExtensibleCons(view: View, bodies: seq<seq<Simple>>, u: Env)
    requires bodies != []
    ensures NoneExtensible(view, bodies, u) <==> !Extensible(view, bodies[0], u) && NoneExtensible(view, bodies[1..], u)
  {
    var rest := bodies[1..];
    if NoneExtensible(view, bodies, u) {
      forall i | 0 <= i < |rest|
        ensures !Extensible(view, rest[i], u)
      {
        assert rest[i] == bodies[i + 1];
      }
    }
    if !Extensible(view, bodies[0], u) && NoneExtensible(view, rest, u) {
      forall i | 0 <= i < |bodies|
        ensures !Extensible(view, bodies[i], u)
      {
        assert i > 0 ==> rest[i - 1] == bodies[i];
      }
    }
  }

  lemma CorrelatedMeans(u: Env, bodies: seq<seq<Simple>>)
    ensures Correlated(u, bodies) <==> !Uncorrelated(u, bodies)
  {
    if Uncorrelated(u, bodies) {
      var x, b, c :| x in u && b in bodies && c in bodies && x in BodyVars(b) && x !in BodyVars(c);
      assert x in NotVars(bodies);
    }
    if |bodies| > 1 && !Correlated(u, bodies) {
      var x, c :| x in NotVars(bodies) && x in u && c in bodies && x !in BodyVars(c);
      var b :| b in bodies && x in BodyVars(b);
    }
  }

  /** A `not` raises exactly as said, and otherwise keeps the environment exactly if no body is extensible. */
  lemma NotExact(view: View, u: Env, bodies: seq<seq<Simple>>)
    requires forall b :: b in bodies ==> SafeBody(b, u.Keys)
    ensures ExtendAtom(view, u, Not(bodies)).Failure? <==> NotRaises(view, bodies, u)
    ensures ExtendAtom(view, u, Not(bodies)).Success? ==>
      ExtendAtom(view, u, Not(bodies)).value == if NoneExtensible(view, bodies, u) then [u] else []
  {
    CorrelatedMeans(u, bodies);
    AlternativesExact(view, u, bodies);
  }
}
