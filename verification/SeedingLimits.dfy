/**
 When a branch the validator admits is safe to seed, and the two ways in which seeding is not
 filtering: a decimal string requested for an arithmetic output, and a requested variable that a
 `not` body uses before the branch binds it.
 */
module SeedingLimits {
  import opened Wrappers
  import opened WhereEval
  import opened Seeding
  import opened SeededBranches

  // The variables that the branch first binds as the output of an arithmetic atom.
  function ArithmeticOutputs(branch: seq<Atom>, bound: set<string>): set<string> {
    if branch == [] then {}
    else
      (match branch[0]
       case Positive(a) => if a.Arith? && a.output !in bound then {a.output} else {}
       case Not(_) => {})
      + ArithmeticOutputs(branch[1..], bound + AtomVars(branch[0]))
  }

  predicate IntegersRequested(branch: seq<Atom>, bound: set<string>, seed: Env) {
    forall z :: z in ArithmeticOutputs(branch, bound) && z in seed ==> seed[z].Num?
  }

  predicate NegationScoped(branch: seq<Atom>, bound: set<string>, seed: Env) {
    branch != [] ==>
      && (branch[0].Not? ==> NotVars(branch[0].bodies) * seed.Keys <= bound)
      && NegationScoped(branch[1..], bound + AtomVars(branch[0]), seed)
  }

  lemma SafeAtomIsSeedSafe(a: Simple, bound: set<string>, seed: Env)
    requires SafeAtom(a, bound)
    requires a.Arith? && a.output !in bound && a.output in seed ==> seed[a.output].Num?
    ensures SeedSafe(a, bound, seed)
  {
  }

  lemma {:induction false} SafeIsSeedSafe(branch: seq<Atom>, bound: set<string>, seed: Env)
    requires SafeBranch(branch, bound) && NegationScoped(branch, bound, seed)
    requires IntegersRequested(branch, bound, seed)
    ensures BranchSeedSafe(branch, bound, seed)
  {
    if branch != [] {
      assert ArithmeticOutputs(branch[1..], bound + AtomVars(branch[0])) <= ArithmeticOutputs(branch, bound);
      if branch[0].Positive? {
        SafeAtomIsSeedSafe(branch[0].atom, bound, seed);
      } else {
        assert bound + AtomVars(branch[0]) == bound;
      }
      SafeIsSeedSafe(branch[1..], bound + AtomVars(branch[0]), seed);
    }
  }

  // ---------- arithmetic outputs are integers ----------

  predicate Integers(env: Env, vars: set<string>) {
    forall z :: z in vars ==> z in env && env[z].Num?
  }

  lemma {:induction false} FrontierIntegers(view: View, envs: seq<Env>, a: Atom, bound: set<string>, nums: set<string>)
    requires ExtendFrontier(view, envs, a).Success?
    requires forall e :: e in envs ==> e.Keys == bound && Integers(e, nums)
    ensures forall e :: e in ExtendFrontier(view, envs, a).value ==>
      e.Keys == bound + AtomVars(a) && Integers(e, nums + ArithmeticOutputs([a], bound))
  {
    if envs != [] {
      ExtendAtomGrows(view, envs[0], a);
      assert envs[0] in envs;
      FrontierIntegers(view, envs[1..], a, bound, nums);
    }
  }

  lemma {:induction false} OutputsAreIntegers(view: View, envs: seq<Env>, branch: seq<Atom>, bound: set<string>, nums: set<string>)
    requires EvalBranch(view, envs, branch).Success?
    requires forall e :: e in envs ==> e.Keys == bound && Integers(e, nums)
    ensures forall e :: e in EvalBranch(view, envs, branch).value ==> Integers(e, nums + ArithmeticOutputs(branch, bound))
    decreases |branch|
  {
    if envs == [] || branch == [] {
    } else {
      FrontierIntegers(view, envs, branch[0], bound, nums);
      assert ArithmeticOutputs(branch, bound)
          == ArithmeticOutputs([branch[0]], bound) + ArithmeticOutputs(branch[1..], bound + AtomVars(branch[0]));
      OutputsAreIntegers(view, ExtendFrontier(view, envs, branch[0]).value, branch[1..], bound + AtomVars(branch[0]),
                         nums + ArithmeticOutputs([branch[0]], bound));
    }
  }

  lemma NoMatches(envs: seq<Env>, seed: Env)
    requires forall e :: e in envs ==> !Matches(e, seed)
    ensures MatchesOf(envs, seed) == []
  {
  }

  // ---------- inputs on which seeding is not filtering ----------

  const X_TERMS := [Var("$x")]
  const P_X := Positive(Pred("p", X_TERMS))
  const Z_IS_X := Positive(Arith("$z", AddC(Var("$x"), Num(0))))

  lemma UnseededSum(view: View, branch: seq<Atom>) returns (final: Env)
    requires "p" in view && view["p"] == [[Num(5)]] && branch == [P_X, Z_IS_X]
    ensures EvalBranch(view, [map[]], branch) == Success([final]) && final == map["$x" := Num(5), "$z" := Num(5)]
  {
    var found: Env := map["$x" := Num(5)];
    OneRow(view, map[], found);
    final := found["$z" := Num(5)];
    OneEnv(view, found, Z_IS_X, final);
    TwoSteps(view, map[], found, final, branch);
  }

  lemma SeededSum(view: View, branch: seq<Atom>) returns (joined: Env)
    requires "p" in view && view["p"] == [[Num(5)]] && branch == [P_X, Z_IS_X]
    ensures EvalBranch(view, [map["$z" := Text("5")]], branch) == Success([joined])
  {
    var seed: Env := map["$z" := Text("5")];
    joined := seed["$x" := Num(5)];
    OneRow(view, seed, joined);
    assert Coerce(Text("5")) == Some(5) by {
      assert DigitsValue("5"[..0]) == 0;
    }
    OneEnv(view, joined, Z_IS_X, joined);
    TwoSteps(view, seed, joined, joined, branch);
  }

  /** The fact p(5), the branch p(x), z = x + 0, and the request z = "5". */
  lemma DecimalStringDiverges() returns (view: View, branch: seq<Atom>, seed: Env)
    ensures SafeBranch(branch, {}) && seed.Keys <= BranchVars(branch)
    ensures EvalBranch(view, [map[]], branch).Success?
    ensures MatchesOf(EvalBranch(view, [map[]], branch).value, seed) == []
    ensures EvalBranch(view, [seed], branch).Success? && EvalBranch(view, [seed], branch).value != []
  {
    branch := [P_X, Z_IS_X];
    view := map["p" := [[Num(5)]]];
    seed := map["$z" := Text("5")];
    var final := UnseededSum(view, branch);
    var _ := SeededSum(view, branch);
    FinalDiffers(final);
    SumIsSafe(branch);
  }

  lemma FinalDiffers(final: Env)
    requires final == map["$x" := Num(5), "$z" := Num(5)]
    ensures MatchesOf([final], map["$z" := Text("5")]) == []
  {
    assert final["$z"] != Text("5");
    NoMatches([final], map["$z" := Text("5")]);
  }

  lemma SumIsSafe(branch: seq<Atom>)
    requires branch == [P_X, Z_IS_X]
    ensures SafeBranch(branch, {}) && {"$z"} <= BranchVars(branch)
  {
    assert branch[1] == Z_IS_X && Z_IS_X in branch && "$z" in SimpleVars(Z_IS_X.atom);
    TermsVarsCons(X_TERMS);
    assert branch[1..] == [Z_IS_X] && [Z_IS_X][1..] == [];
    assert SafeBranch([Z_IS_X], {} + SimpleVars(P_X.atom));
  }

  const P_ATOM := Positive(Pred("p", [Var("$x")]))
  const Q_ATOM := Pred("q", [Var("$x"), Var("$y")])
  const NOT_Q := Not([[Q_ATOM]])
  const R_ATOM := Positive(Pred("r", [Var("$y")]))

  /** Facts p(5), q(5,3), r(2), the branch p(x), not q(x,y), r(y), and the request y = 2. */
  lemma EarlyNegationDiverges() returns (view: View, branch: seq<Atom>, seed: Env)
    ensures SafeBranch(branch, {}) && seed.Keys <= BranchVars(branch)
    ensures EvalBranch(view, [map[]], branch) == Success([])
    ensures EvalBranch(view, [seed], branch).Success? && EvalBranch(view, [seed], branch).value != []
  {
    branch := [P_ATOM, NOT_Q, R_ATOM];
    view := map["p" := [[Num(5)]], "q" := [[Num(5), Num(3)]], "r" := [[Num(2)]]];
    seed := map["$y" := Num(2)];
    var found: Env := map["$x" := Num(5)];
    var joined: Env := map["$x" := Num(5), "$y" := Num(2)];
    BranchIsSafe(branch);
    OneRow(view, map[], found);
    OneRow(view, seed, joined);
    UnseededFails(view, found);
    assert branch[1..][0] == NOT_Q;
    assert EvalBranch(view, [], branch[1..][1..]) == Success([]);
    assert EvalBranch(view, [found], branch[1..]) == Success([]);
    SeededHolds(view, joined);
    RRow(view, joined);
    assert branch[1..] == [NOT_Q, R_ATOM];
    TwoSteps(view, joined, joined, joined, branch[1..]);
  }

  lemma BranchIsSafe(branch: seq<Atom>)
    requires branch == [P_ATOM, NOT_Q, R_ATOM]
    ensures SafeBranch(branch, {}) && {"$y"} <= BranchVars(branch)
  {
    TermsVarsCons([Var("$x")]);
    TermsVarsCons([Var("$x"), Var("$y")]);
    TermsVarsCons([Var("$y")]);
    var bound := {} + SimpleVars(P_ATOM.atom);
    assert "$x" in Reads(Q_ATOM) * bound;
    assert [Q_ATOM] in NOT_Q.bodies && Q_ATOM in [Q_ATOM];
    assert SafeBody([Q_ATOM], bound) by {
      assert [Q_ATOM][1..] == [];
    }
    assert SafeBranch([R_ATOM], bound);
    assert SafeBranch([NOT_Q, R_ATOM], bound) by {
      assert [NOT_Q, R_ATOM][1..] == [R_ATOM];
    }
    assert branch[1..] == [NOT_Q, R_ATOM];
    assert branch[1..][0] == NOT_Q && branch[1..][1..] == [R_ATOM] && [R_ATOM][1..] == [];
    assert R_ATOM in branch && "$y" in SimpleVars(R_ATOM.atom);
  }

  // From the empty environment, q(5, y) has the row (5, 3), so the negation fails.
  lemma UnseededFails(view: View, env: Env)
    requires "q" in view && view["q"] == [[Num(5), Num(3)]]
    requires env == map["$x" := Num(5)]
    ensures ExtendFrontier(view, [env], NOT_Q) == Success([])
  {
    QRow(view, env, view["q"], [env["$y" := Num(3)]]);
    assert NOT_Q.bodies[0] == [Pred("q", [Var("$x"), Var("$y")])];
    assert SomeBodyHolds(view, env, NOT_Q.bodies) == Success(true);
    assert ExtendAtom(view, env, NOT_Q) == Success([]);
    assert ExtendFrontier(view, [env][1..], NOT_Q) == Success([]);
    var none: seq<Env> := [];
    assert none + none == none;
  }

  // With y = 2 given, q(5, 2) has no row, so the negation holds.
  lemma SeededHolds(view: View, env: Env)
    requires "q" in view && view["q"] == [[Num(5), Num(3)]]
    requires env == map["$x" := Num(5), "$y" := Num(2)]
    ensures ExtendFrontier(view, [env], NOT_Q) == Success([env])
  {
    QRow(view, env, view["q"], []);
    assert NOT_Q.bodies[0] == [Pred("q", [Var("$x"), Var("$y")])];
    assert NOT_Q.bodies[1..] == [];
    assert SomeBodyHolds(view, env, NOT_Q.bodies[1..]) == Success(false);
    assert SomeBodyHolds(view, env, NOT_Q.bodies) == Success(false);
    assert ExtendAtom(view, env, NOT_Q) == Success([env]);
    OneEnv(view, env, NOT_Q, env);
  }

  lemma QRow(view: View, env: Env, rows: seq<Row>, out: seq<Env>)
    requires "q" in view && view["q"] == rows == [[Num(5), Num(3)]]
    requires "$x" in env && env["$x"] == Num(5)
    requires out == if "$y" in env then (if env["$y"] == Num(3) then [env] else []) else [env["$y" := Num(3)]]
    ensures EvalSimple(view, [env], [Pred("q", [Var("$x"), Var("$y")])]) == Success(out)
  {
    var terms := [Var("$x"), Var("$y")];
    var a := Pred("q", terms);
    assert rows[1..] == [] && terms[1..] == [Var("$y")] && terms[1..][1..] == [] && rows[0][1..] == [Num(3)];
    CandidatesEnough(env, terms, rows);
    assert MatchRows(env, terms, rows[1..]) == [];
    assert MatchRows(env, terms, rows) == out;
    assert Extend(view, env, a) == Success(out);
    assert ExtendAll(view, [env][1..], a) == Success([]);
    assert out + [] == out;
    assert ExtendAll(view, [env], a) == Success(out);
    assert [a][1..] == [];
  }

  lemma RRow(view: View, env: Env)
    requires "r" in view && view["r"] == [[Num(2)]] && "$y" in env && env["$y"] == Num(2)
    ensures ExtendFrontier(view, [env], Positive(Pred("r", [Var("$y")]))) == Success([env])
  {
    var terms, rows := [Var("$y")], [[Num(2)]];
    assert rows[1..] == [] && terms[1..] == [] && rows[0][1..] == [];
    CandidatesEnough(env, terms, rows);
    assert MatchRows(env, terms, rows[1..]) == [];
    assert [env] + [] == [env];
    assert MatchRows(env, terms, rows) == [env];
    OneEnv(view, env, Positive(Pred("r", terms)), env);
  }

  lemma OneRow(view: View, env: Env, env': Env)
    requires "p" in view && view["p"] == [[Num(5)]] && "$x" !in env && env' == env["$x" := Num(5)]
    ensures ExtendFrontier(view, [env], Positive(Pred("p", [Var("$x")]))) == Success([env'])
  {
    var terms, rows := [Var("$x")], [[Num(5)]];
    assert rows[1..] == [] && terms[1..] == [] && rows[0][1..] == [];
    CandidatesEnough(env, terms, rows);
    assert MatchRow(env, terms, rows[0]) == Some(env');
    assert MatchRows(env, terms, rows[1..]) == [];
    assert [env'] + [] == [env'];
    assert MatchRows(env, terms, rows) == [env'];
    assert view["p"] == rows && ExtendAtom(view, env, Positive(Pred("p", terms))) == Success([env']);
    OneEnv(view, env, Positive(Pred("p", terms)), env');
  }

  lemma OneEnv(view: View, env: Env, a: Atom, env': Env)
    requires ExtendAtom(view, env, a) == Success([env'])
    ensures ExtendFrontier(view, [env], a) == Success([env'])
  {
    assert ExtendFrontier(view, [env][1..], a) == Success([]);
    assert [env'] + [] == [env'];
  }

  // A two-atom branch, evaluated one environment at a time.
  lemma TwoSteps(view: View, env0: Env, env1: Env, env2: Env, branch: seq<Atom>)
    requires |branch| == 2
    requires ExtendFrontier(view, [env0], branch[0]) == Success([env1])
    requires ExtendFrontier(view, [env1], branch[1]) == Success([env2])
    ensures EvalBranch(view, [env0], branch) == Success([env2])
  {
    assert branch[1..][0] == branch[1] && branch[1..][1..] == [];
    assert EvalBranch(view, [env2], branch[1..][1..]) == Success([env2]);
    assert EvalBranch(view, [env1], branch[1..]) == Success([env2]);
  }
}
