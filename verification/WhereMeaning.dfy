/**
 Branches and bodies: the environments that evaluation returns are exactly the solutions, whether it
 starts from nothing or from a requested binding, and it raises exactly where said.
 */
module WhereMeaning {
  import opened Wrappers
  import opened WhereEval
  import opened Frontiers
  import opened Seeding
  import opened SeededBranches
  import opened Semantics
  import opened AtomMeaning
  import opened BodyMeaning
  import Order = StringOrder

  // ---------- solutions ----------

  // What is bound before atom k of a branch that starts from u.
  function BoundAt(branch: seq<Atom>, u: Env, k: nat): set<string>
    requires k <= |branch|
  {
    u.Keys + BranchVars(branch[..k])
  }

  ghost predicate SolvesAt(view: View, branch: seq<Atom>, u: Env, e: Env, k: nat)
    requires k < |branch|
  {
    var bound := BoundAt(branch, u, k);
    match branch[k]
    case Positive(a) => Satisfies(view, e, a) && BindsInteger(a, bound, e)
    case Not(bodies) => NoneExtensible(view, bodies, Restrict(e, bound))
  }

  /**
   e extends u by the variables of the first k atoms. It satisfies those of them that are positive, with
   integers for what arithmetic binds first, and no `not` body among them has a satisfying extension of
   what is bound before it.
   */
  ghost predicate SolvesFrom(view: View, branch: seq<Atom>, u: Env, e: Env, k: nat)
    requires k <= |branch|
  {
    && Extends(u, e) && e.Keys == BoundAt(branch, u, k)
    && forall j :: 0 <= j < k ==> SolvesAt(view, branch, u, e, j)
  }

  ghost predicate Solution(view: View, branch: seq<Atom>, e: Env) {
    SolvesFrom(view, branch, map[], e, |branch|)
  }

  ghost predicate AtomRaisesOn(view: View, u: Env, a: Atom) {
    match a
    case Positive(s) => RaisesOn(view, u, s)
    case Not(bodies) => NotRaises(view, bodies, u)
  }

  // The atom raises on an environment that solves the atoms before it.
  ghost predicate RaisesAtBranch(view: View, branch: seq<Atom>, u: Env, k: nat) {
    k < |branch| && exists e :: SolvesFrom(view, branch, u, e, k) && AtomRaisesOn(view, e, branch[k])
  }

  ghost predicate BranchRaisesFrom(view: View, branch: seq<Atom>, u: Env) {
    exists k: nat :: RaisesAtBranch(view, branch, u, k)
  }

  lemma BranchVarsMean(branch: seq<Atom>, v: string)
    ensures v in BranchVars(branch) <==> exists a :: a in branch && a.Positive? && Mentions(a.atom, v)
  {
    forall a | a in branch && a.Positive?
      ensures v in SimpleVars(a.atom) <==> Mentions(a.atom, v)
    {
      VarsMean(a.atom, v);
    }
  }

  // ---------- what the validator admits ----------

  // A `not` reads something that is bound before it, and its bodies are admitted there.
  ghost predicate NotAdmitted(bodies: seq<seq<Simple>>, bound: set<string>) {
    || bodies == []
    || !(exists b, a :: b in bodies && a in b && ReadsBound(a, bound))
    || exists b :: b in bodies && !BodyAdmitted(b, bound)
  }

  ghost predicate ReadsBound(a: Simple, bound: set<string>) {
    exists v :: v in bound && (if a.Arith? then ReadBy(a.expr, v) else Mentions(a, v))
  }

  ghost predicate AtomAdmitted(a: Atom, bound: set<string>) {
    if a.Positive? then Admitted(a.atom, bound) else !NotAdmitted(a.bodies, bound)
  }

  ghost predicate AdmittedAt(branch: seq<Atom>, k: nat)
    requires k < |branch|
  {
    AtomAdmitted(branch[k], BranchVars(branch[..k]))
  }

  /** A body is valid if it has branches, none empty, and every atom is admitted where it stands. */
  ghost predicate Valid(where: seq<seq<Atom>>) {
    where != [] && forall b :: b in where ==> b != [] && BranchAdmitted(b)
  }

  ghost predicate BranchAdmitted(branch: seq<Atom>) {
    forall k :: 0 <= k < |branch| ==> AdmittedAt(branch, k)
  }

  predicate SafeStep(a: Atom, bound: set<string>) {
    match a
    case Positive(s) => SafeAtom(s, bound)
    case Not(bodies) =>
      && bodies != []
      && (exists b :: b in bodies && exists s :: s in b && Reads(s) * bound != {})
      && (forall b :: b in bodies ==> b != [] && SafeBody(b, bound))
  }

  lemma ReadsMean(a: Simple, bound: set<string>)
    ensures Reads(a) * bound != {} <==> ReadsBound(a, bound)
  {
    forall v
      ensures v in Reads(a) <==> if a.Arith? then ReadBy(a.expr, v) else Mentions(a, v)
    {
      VarsMean(a, v);
    }
    if Reads(a) * bound != {} {
      var v :| v in Reads(a) * bound;
    }
    if v :| v in bound && v in Reads(a) {
      assert v in Reads(a) * bound;
    }
  }

  lemma SafeStepMeans(a: Atom, bound: set<string>)
    ensures SafeStep(a, bound) <==> AtomAdmitted(a, bound)
  {
    match a
    case Positive(s) => SafeMeansAdmitted(s, bound);
    case Not(bodies) =>
      forall b | b in bodies
        ensures BodyAdmitted(b, bound) <==> b != [] && SafeBody(b, bound)
      {
        BodyAdmittedExactly(b, bound);
      }
      forall b, s | b in bodies && s in b
        ensures Reads(s) * bound != {} <==> ReadsBound(s, bound)
      {
        ReadsMean(s, bound);
      }
  }

  lemma {:induction false} SafeBranchSteps(branch: seq<Atom>, bound: set<string>)
    ensures SafeBranch(branch, bound)
      <==> forall k :: 0 <= k < |branch| ==> SafeStep(branch[k], bound + BranchVars(branch[..k]))
  {
    if branch != [] {
      var rest, bound' := branch[1..], bound + AtomVars(branch[0]);
      assert branch[0].Not? ==> bound' == bound;
      SafeBranchSteps(rest, bound');
      assert bound + BranchVars(branch[..0]) == bound;
      forall k | 0 <= k < |rest|
        ensures rest[k] == branch[k + 1] && bound + BranchVars(branch[..k + 1]) == bound' + BranchVars(rest[..k])
      {
        assert branch[..k + 1][1..] == rest[..k];
        BranchVarsCons(branch[..k + 1]);
      }
      StepsCons(branch, bound, rest, bound');
    }
  }

  lemma StepsCons(branch: seq<Atom>, bound: set<string>, rest: seq<Atom>, bound': set<string>)
    requires branch != [] && rest == branch[1..] && bound + BranchVars(branch[..0]) == bound
    requires forall k :: 0 <= k < |rest| ==>
      rest[k] == branch[k + 1] && bound + BranchVars(branch[..k + 1]) == bound' + BranchVars(rest[..k])
    ensures (forall k :: 0 <= k < |branch| ==> SafeStep(branch[k], bound + BranchVars(branch[..k])))
      <==> SafeStep(branch[0], bound)
           && forall k :: 0 <= k < |rest| ==> SafeStep(rest[k], bound' + BranchVars(rest[..k]))
  {
    if SafeStep(branch[0], bound) && forall k :: 0 <= k < |rest| ==> SafeStep(rest[k], bound' + BranchVars(rest[..k])) {
      forall k | 0 <= k < |branch|
        ensures SafeStep(branch[k], bound + BranchVars(branch[..k]))
      {
        if k > 0 {
          assert rest[k - 1] == branch[(k - 1) + 1];
        }
      }
    }
    if forall k :: 0 <= k < |branch| ==> SafeStep(branch[k], bound + BranchVars(branch[..k])) {
      forall k | 0 <= k < |rest|
        ensures SafeStep(rest[k], bound' + BranchVars(rest[..k]))
      {
        assert SafeStep(branch[k + 1], bound + BranchVars(branch[..k + 1]));
      }
    }
  }

  lemma SafeBranchMeans(branch: seq<Atom>)
    ensures SafeBranch(branch, {}) <==> BranchAdmitted(branch)
  {
    SafeBranchSteps(branch, {});
    forall k | 0 <= k < |branch|
      ensures SafeStep(branch[k], {} + BranchVars(branch[..k])) <==> AdmittedAt(branch, k)
    {
      assert {} + BranchVars(branch[..k]) == BranchVars(branch[..k]);
      SafeStepMeans(branch[k], BranchVars(branch[..k]));
    }
  }

  // What is safe stays safe when more is bound.
  lemma SafeMore(a: Atom, bound: set<string>, more: set<string>)
    requires SafeStep(a, bound) && bound <= more
    ensures a.Positive? ==> SafeAtom(a.atom, more)
    ensures a.Not? ==> forall b :: b in a.bodies ==> SafeBody(b, more)
  {
    if a.Not? {
      forall b | b in a.bodies
        ensures SafeBody(b, more)
      {
        SafeBodyMore(b, bound, more);
      }
    }
  }

  ghost predicate SafeHere(branch: seq<Atom>, u: Env, k: nat)
    requires k < |branch|
  {
    && (branch[k].Positive? ==> SafeAtom(branch[k].atom, BoundAt(branch, u, k)))
    && (branch[k].Not? ==> forall b :: b in branch[k].bodies ==> SafeBody(b, BoundAt(branch, u, k)))
  }

  lemma SafeAt(branch: seq<Atom>, u: Env, k: nat)
    requires SafeBranch(branch, {}) && k < |branch|
    ensures SafeHere(branch, u, k)
  {
    SafeBranchSteps(branch, {});
    SafeMore(branch[k], {} + BranchVars(branch[..k]), BoundAt(branch, u, k));
  }

  // ---------- one atom further ----------

  lemma PrefixVars(branch: seq<Atom>, u: Env, k: nat)
    requires k < |branch|
    ensures BoundAt(branch, u, k + 1) == BoundAt(branch, u, k) + AtomVars(branch[k])
  {
    assert branch[..k + 1] == branch[..k] + [branch[k]];
    assert forall a :: a in branch[..k + 1] <==> a in branch[..k] || a == branch[k];
  }

  lemma SolvesAtLocal(view: View, branch: seq<Atom>, u: Env, y: Env, x: Env, j: nat, k: nat)
    requires j < k <= |branch| && y.Keys == BoundAt(branch, u, k) && Extends(y, x)
    ensures SolvesAt(view, branch, u, y, j) <==> SolvesAt(view, branch, u, x, j)
  {
    var bound := BoundAt(branch, u, j);
    assert branch[j] in branch[..k];
    assert forall a :: a in branch[..j] ==> a in branch[..k];
    assert bound <= y.Keys;
    match branch[j]
    case Positive(a) =>
      assert SimpleVars(a) <= y.Keys;
      SatisfiesLocal(view, y, x, a);
    case Not(bodies) =>
      assert Restrict(y, bound) == Restrict(x, bound);
  }

  lemma SolvesStep(view: View, branch: seq<Atom>, u: Env, y: Env, x: Env, k: nat)
    requires k < |branch| && SolvesFrom(view, branch, u, y, k)
    requires Extends(y, x) && x.Keys == y.Keys + AtomVars(branch[k]) && SolvesAt(view, branch, u, x, k)
    ensures SolvesFrom(view, branch, u, x, k + 1)
  {
    PrefixVars(branch, u, k);
    forall j | 0 <= j < k + 1
      ensures SolvesAt(view, branch, u, x, j)
    {
      if j < k {
        SolvesAtLocal(view, branch, u, y, x, j, k);
      }
    }
  }

  lemma SolvesBack(view: View, branch: seq<Atom>, u: Env, x: Env, k: nat) returns (y: Env)
    requires k < |branch| && SolvesFrom(view, branch, u, x, k + 1)
    ensures SolvesFrom(view, branch, u, y, k) && Extends(y, x) && x.Keys == y.Keys + AtomVars(branch[k])
    ensures SolvesAt(view, branch, u, x, k)
  {
    PrefixVars(branch, u, k);
    y := Restrict(x, BoundAt(branch, u, k));
    assert y.Keys == BoundAt(branch, u, k);
    forall j | 0 <= j < k
      ensures SolvesAt(view, branch, u, y, j)
    {
      SolvesAtLocal(view, branch, u, y, x, j, k);
    }
  }

  // What an atom does to an environment that binds the variables before it.
  lemma AtomExact(view: View, branch: seq<Atom>, u: Env, y: Env, k: nat, x: Env)
    requires k < |branch| && SafeHere(branch, u, k) && y.Keys == BoundAt(branch, u, k)
    ensures ExtendAtom(view, y, branch[k]).Failure? <==> AtomRaisesOn(view, y, branch[k])
    ensures ExtendAtom(view, y, branch[k]).Success? ==>
      (x in ExtendAtom(view, y, branch[k]).value
       <==> Extends(y, x) && x.Keys == y.Keys + AtomVars(branch[k]) && SolvesAt(view, branch, u, x, k))
  {
    match branch[k]
    case Positive(a) =>
      StepRaises(view, y, a);
      if Extend(view, y, a).Success? {
        StepExact(view, y, a, x);
      }
    case Not(bodies) =>
      NotExact(view, y, bodies);
      SameEnv(y, x);
      assert y.Keys + AtomVars(branch[k]) == y.Keys;
      assert Restrict(y, y.Keys) == y;
  }

  lemma FrontierStepExact(view: View, branch: seq<Atom>, u: Env, k: nat, before: seq<Env>, x: Env)
    requires k < |branch| && SafeHere(branch, u, k)
    requires forall y :: y in before <==> SolvesFrom(view, branch, u, y, k)
    requires forall y :: y in before ==> ExtendAtom(view, y, branch[k]).Success?
    ensures (exists y :: y in before && x in ExtendAtom(view, y, branch[k]).value) <==> SolvesFrom(view, branch, u, x, k + 1)
  {
    if y :| y in before && x in ExtendAtom(view, y, branch[k]).value {
      AtomExact(view, branch, u, y, k, x);
      SolvesStep(view, branch, u, y, x, k);
    }
    if SolvesFrom(view, branch, u, x, k + 1) {
      var y := SolvesBack(view, branch, u, x, k);
      AtomExact(view, branch, u, y, k, x);
      assert y in before;
    }
  }

  lemma FrontierStepRaises(view: View, branch: seq<Atom>, u: Env, k: nat, before: seq<Env>)
    requires k < |branch| && SafeHere(branch, u, k)
    requires forall y :: y in before <==> SolvesFrom(view, branch, u, y, k)
    ensures ExtendFrontier(view, before, branch[k]).Failure? <==> RaisesAtBranch(view, branch, u, k)
  {
    FrontierElements(view, before, branch[k]);
    forall y | y in before
      ensures ExtendAtom(view, y, branch[k]).Failure? <==> AtomRaisesOn(view, y, branch[k])
    {
      AtomExact(view, branch, u, y, k, y);
    }
  }

  /** The frontier before atom k holds exactly the environments that solve the atoms before it. */
  lemma {:induction false} PrefixExact(view: View, branch: seq<Atom>, u: Env, k: nat)
    requires SafeBranch(branch, {}) && k <= |branch| && EvalBranch(view, [u], branch[..k]).Success?
    ensures forall e :: e in EvalBranch(view, [u], branch[..k]).value <==> SolvesFrom(view, branch, u, e, k)
  {
    if k == 0 {
      assert branch[..0] == [];
      forall e
        ensures SolvesFrom(view, branch, u, e, 0) <==> e == u
      {
        SameEnv(u, e);
        assert BoundAt(branch, u, 0) == u.Keys;
      }
    } else {
      assert branch[..k] == branch[..k - 1] + [branch[k - 1]];
      EvalBranchSnoc(view, [u], branch[..k - 1], branch[k - 1]);
      PrefixExact(view, branch, u, k - 1);
      SafeAt(branch, u, k - 1);
      var before := EvalBranch(view, [u], branch[..k - 1]).value;
      FrontierElements(view, before, branch[k - 1]);
      forall x
        ensures x in EvalBranch(view, [u], branch[..k]).value <==> SolvesFrom(view, branch, u, x, k)
      {
        FrontierStepExact(view, branch, u, k - 1, before, x);
      }
    }
  }

  ghost predicate RaisesBeforeAtom(view: View, branch: seq<Atom>, u: Env, k: nat) {
    k > 0 && (RaisesBeforeAtom(view, branch, u, k - 1) || RaisesAtBranch(view, branch, u, k - 1))
  }

  lemma {:induction false} RaisesSomewhere(view: View, branch: seq<Atom>, u: Env, k: nat)
    ensures RaisesBeforeAtom(view, branch, u, k) <==> exists j: nat :: j < k && RaisesAtBranch(view, branch, u, j)
  {
    if k > 0 {
      RaisesSomewhere(view, branch, u, k - 1);
    }
  }

  lemma RaisesStep(view: View, branch: seq<Atom>, u: Env, k: nat, f: Envs)
    requires SafeBranch(branch, {}) && k < |branch| && f == EvalBranch(view, [u], branch[..k])
    ensures EvalBranch(view, [u], branch[..k + 1]).Failure? <==> f.Failure? || RaisesAtBranch(view, branch, u, k)
  {
    assert branch[..k + 1] == branch[..k] + [branch[k]];
    EvalBranchSnoc(view, [u], branch[..k], branch[k]);
    if f.Success? {
      PrefixExact(view, branch, u, k);
      SafeAt(branch, u, k);
      FrontierStepRaises(view, branch, u, k, f.value);
    }
  }

  lemma {:induction false} PrefixRaises(view: View, branch: seq<Atom>, u: Env, k: nat)
    requires SafeBranch(branch, {}) && k <= |branch|
    ensures EvalBranch(view, [u], branch[..k]).Failure? <==> RaisesBeforeAtom(view, branch, u, k)
  {
    if k == 0 {
      assert branch[..0] == [];
    } else {
      var f := EvalBranch(view, [u], branch[..k - 1]);
      RaisesStep(view, branch, u, k - 1, f);
      PrefixRaises(view, branch, u, k - 1);
    }
  }

  /**
   A branch that the validator admits, run from u, raises exactly if some atom raises on an environment
   that solves the atoms before it. Otherwise it yields exactly the environments that solve all atoms.
   */
  lemma BranchMeaning(view: View, branch: seq<Atom>, u: Env)
    requires SafeBranch(branch, {})
    ensures EvalBranch(view, [u], branch).Failure? <==> BranchRaisesFrom(view, branch, u)
    ensures EvalBranch(view, [u], branch).Success? ==>
      forall e :: e in EvalBranch(view, [u], branch).value <==> SolvesFrom(view, branch, u, e, |branch|)
  {
    assert branch[..|branch|] == branch;
    PrefixRaises(view, branch, u, |branch|);
    RaisesSomewhere(view, branch, u, |branch|);
    if EvalBranch(view, [u], branch).Success? {
      PrefixExact(view, branch, u, |branch|);
    }
  }

  // ---------- whole bodies ----------

  ghost predicate SolvesWhere(view: View, where: seq<seq<Atom>>, e: Env) {
    exists b :: b in where && Solution(view, b, e)
  }

  // Sorting compares strings with strings, byte strings with byte strings, and numbers with numbers.
  ghost predicate SameKind(v: Value, w: Value) {
    (v.Text? <==> w.Text?) && (v.Bytes? <==> w.Bytes?)
  }

  ghost predicate AgreeOn(e: Env, f: Env, y: string) {
    (y in e || y in f) ==> y in e && y in f && e[y] == f[y]
  }

  ghost predicate NameBefore(y: string, x: string) {
    exists n: nat :: Order.FirstDifference(y, x, n)
  }

  // The first item in which they differ has one name and values of two kinds.
  ghost predicate Incomparable(e: Env, f: Env) {
    exists x :: x in e && x in f && !SameKind(e[x], f[x]) && forall y :: NameBefore(y, x) ==> AgreeOn(e, f, y)
  }

  lemma ClashMeans(e: Env, f: Env)
    ensures Clash(e, f) <==> Incomparable(e, f)
  {
    forall x, y
      ensures Order.Less(y, x) <==> NameBefore(y, x)
    {
      Order.LessMeans(y, x);
    }
    if x :| x in e && x in f && e[x] != f[x] && !Orderable(e[x], f[x])
            && forall y :: y in e.Keys + f.Keys && Order.Less(y, x) ==> y in e && y in f && e[y] == f[y] {
      assert !SameKind(e[x], f[x]);
      assert forall y :: NameBefore(y, x) ==> AgreeOn(e, f, y);
    }
    if x :| x in e && x in f && !SameKind(e[x], f[x]) && forall y :: NameBefore(y, x) ==> AgreeOn(e, f, y) {
      forall y | y in e.Keys + f.Keys && Order.Less(y, x)
        ensures y in e && y in f && e[y] == f[y]
      {
        assert AgreeOn(e, f, y);
      }
    }
  }

  // A branch raises, or two solutions cannot be ordered.
  ghost predicate WhereRaises(view: View, where: seq<seq<Atom>>) {
    || (exists b :: b in where && BranchRaisesFrom(view, b, map[]))
    || (exists e, f :: SolvesWhere(view, where, e) && SolvesWhere(view, where, f) && Incomparable(e, f))
  }

  lemma BranchesStep(view: View, where: seq<seq<Atom>>, before: seq<seq<Atom>>, last: seq<Atom>)
    requires where == before + [last] && SafeBranch(last, {})
    requires EvalBranches(view, before).Failure? <==> exists b :: b in before && BranchRaisesFrom(view, b, map[])
    requires EvalBranches(view, before).Success? ==>
      forall e :: e in EvalBranches(view, before).value <==> SolvesWhere(view, before, e)
    ensures EvalBranches(view, where).Failure? <==> exists b :: b in where && BranchRaisesFrom(view, b, map[])
    ensures EvalBranches(view, where).Success? ==>
      forall e :: e in EvalBranches(view, where).value <==> SolvesWhere(view, where, e)
  {
    BranchMeaning(view, last, map[]);
    assert where[..|where| - 1] == before && where[|where| - 1] == last;
    assert forall b :: b in where <==> b in before || b == last;
    var f, g := EvalBranches(view, before), EvalBranch(view, [map[]], last);
    assert EvalBranches(view, where).Failure? <==> f.Failure? || g.Failure?;
    if f.Success? && g.Success? {
      assert EvalBranches(view, where).value == f.value + g.value;
      forall e
        ensures SolvesWhere(view, where, e) <==> SolvesWhere(view, before, e) || Solution(view, last, e)
      {
      }
    }
  }

  lemma {:induction false} BranchesMeaning(view: View, where: seq<seq<Atom>>)
    requires forall b :: b in where ==> SafeBranch(b, {})
    ensures EvalBranches(view, where).Failure? <==> exists b :: b in where && BranchRaisesFrom(view, b, map[])
    ensures EvalBranches(view, where).Success? ==>
      forall e :: e in EvalBranches(view, where).value <==> SolvesWhere(view, where, e)
  {
    if where != [] {
      var before, last := where[..|where| - 1], where[|where| - 1];
      BranchesMeaning(view, before);
      assert where == before + [last];
      BranchesStep(view, where, before, last);
    }
  }

  lemma ValidMeans(where: seq<seq<Atom>>)
    ensures Valid(where) <==> !(where == [] || exists b :: b in where && (b == [] || !SafeBranch(b, {})))
  {
    forall b | b in where
      ensures SafeBranch(b, {}) <==> BranchAdmitted(b)
    {
      SafeBranchMeans(b);
    }
  }

  /**
   Evaluating a body fails exactly if the body is not valid, a branch raises, or two solutions cannot be
   ordered. Otherwise it yields exactly the solutions of its branches, each once.
   */
  lemma EvaluationMeaning(view: View, where: seq<seq<Atom>>)
    ensures EvaluateWhere(view, where).Failure? <==> !Valid(where) || WhereRaises(view, where)
    ensures EvaluateWhere(view, where).Success? ==>
      forall e :: e in EvaluateWhere(view, where).value <==> SolvesWhere(view, where, e)
    ensures EvaluateWhere(view, where).Success? ==> DistinctEnvs(EvaluateWhere(view, where).value)
  {
    ValidMeans(where);
    if Valid(where) {
      BranchesMeaning(view, where);
      if EvalBranches(view, where).Success? {
        DedupeElements(EvalBranches(view, where).value);
        DedupeDistinct(EvalBranches(view, where).value);
        forall e, f
          ensures Clash(e, f) <==> Incomparable(e, f)
        {
          ClashMeans(e, f);
        }
      }
    }
  }
}
