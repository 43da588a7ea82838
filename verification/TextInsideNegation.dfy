/**
 Why integers have to be requested for arithmetic outputs inside `not` too: a decimal string there can
 make the seeded frontier lose an evaluated match.
 */
module TextInsideNegation {
  import opened Wrappers
  import opened WhereEval
  import opened Seeding
  import opened SeededBranches
  import opened SeedingLimits
  import opened EarlyNegation

  const Z_OF_X := Arith("$z", AddC(Var("$x"), Num(0)))
  const Q_Z := Pred("q", [Var("$z")])
  const NO_Q := Not([[Z_OF_X, Q_Z]])

  function PredX(pred: string, x: string): Simple {
    Pred(pred, [Var(x)])
  }

  // A predicate with a single one-column fact.
  lemma OneFact(view: View, env: Env, pred: string, x: string, v: Value)
    requires pred in view && view[pred] == [[v]]
    ensures Extend(view, env, PredX(pred, x))
         == Success(if x !in env then [env[x := v]] else if env[x] == v then [env] else [])
  {
    var terms, rows := [Var(x)], [[v]];
    assert rows[1..] == [] && terms[1..] == [] && rows[0][1..] == [];
    CandidatesEnough(env, terms, rows);
    assert MatchRows(env, terms, rows[1..]) == [];
    var bound := env[x := v];
    assert MatchRow(env, terms[1..], rows[0][1..]) == Some(env) && MatchRow(bound, terms[1..], rows[0][1..]) == Some(bound);
    var r := MatchRow(env, terms, rows[0]);
    assert r == if x !in env then Some(env[x := v]) else if env[x] == v then Some(env) else None;
    var first := if r.Some? then [r.value] else [];
    assert first + [] == first;
    assert MatchRows(env, terms, rows) == first;
    assert view[pred] == rows;
  }

  lemma OneExtended(view: View, env: Env, a: Simple)
    ensures ExtendAll(view, [env], a) == Extend(view, env, a)
  {
    assert [env][1..] == [];
    assert ExtendAll(view, [env][1..], a) == Success([]);
    var r := Extend(view, env, a);
    assert r.Success? ==> r.value + [] == r.value;
  }

  // Two atoms in a row, the first of which yields one environment.
  lemma TwoAtoms(view: View, env: Env, next: Env, a: Simple, b: Simple)
    requires Extend(view, env, a) == Success([next])
    ensures EvalSimple(view, [env], [a, b]) == Extend(view, next, b)
  {
    var body := [a, b];
    assert body[1..] == [b] && [b][1..] == [];
    OneExtended(view, env, a);
    OneExtended(view, next, b);
    var r := Extend(view, next, b);
    assert r.Success? ==> EvalSimple(view, r.value, [b][1..]) == r;
    assert EvalSimple(view, [next], [b]) == r;
  }

  lemma NegationAt(view: View, env: Env, next: Env)
    requires "q" in view && view["q"] == [[Text("5")]] && "$z" in next
    requires Extend(view, env, Z_OF_X) == Success([next])
    ensures ExtendAtom(view, env, NO_Q) == Success(if next["$z"] == Text("5") then [] else [env])
  {
    var bodies := [[Z_OF_X, Q_Z]];
    assert Q_Z == PredX("q", "$z");
    OneFact(view, next, "q", "$z", Text("5"));
    TwoAtoms(view, env, next, Z_OF_X, Q_Z);
    assert bodies[0] == [Z_OF_X, Q_Z] && bodies[1..] == [];
    assert SomeBodyHolds(view, env, bodies[1..]) == Success(false);
  }

  lemma ThreeAtoms(view: View, env: Env, next: Env, kept: seq<Env>, branch: seq<Atom>)
    requires |branch| == 3 && ExtendAtom(view, env, branch[0]) == Success([next])
    requires ExtendAtom(view, next, branch[1]) == Success(kept) && (kept == [] || kept == [next])
    ensures EvalBranch(view, [env], branch) == if kept == [] then Success([]) else ExtendAtom(view, next, branch[2])
  {
    OneFrontier(view, env, branch[0]);
    OneFrontier(view, next, branch[1]);
    OneFrontier(view, next, branch[2]);
    var rest := branch[1..];
    assert rest[0] == branch[1] && rest[1..] == [branch[2]] && [branch[2]][1..] == [];
    var last := ExtendAtom(view, next, branch[2]);
    assert last.Success? ==> EvalBranch(view, last.value, [branch[2]][1..]) == last;
    assert EvalBranch(view, [next], [branch[2]]) == last;
    assert EvalBranch(view, [next], rest) == if kept == [] then Success([]) else last;
  }

  lemma TextBranchIsSafe(branch: seq<Atom>, seed: Env)
    requires branch == [Positive(PredX("p", "$x")), NO_Q, Positive(PredX("r", "$z"))]
    ensures SafeBranch(branch, {}) && {"$z"} <= BranchVars(branch) && IntegersRequested(branch, {}, seed)
  {
    var p, r := PredX("p", "$x"), PredX("r", "$z");
    TermsVarsCons([Var("$x")]);
    TermsVarsCons([Var("$z")]);
    var bound := {} + SimpleVars(p);
    var body := [Z_OF_X, Q_Z];
    assert body in NO_Q.bodies && Z_OF_X in body && "$x" in Reads(Z_OF_X) * bound;
    assert body[1..] == [Q_Z] && [Q_Z][1..] == [];
    assert SafeBody([Q_Z], bound + SimpleVars(Z_OF_X));
    assert branch[1..] == [NO_Q, Positive(r)] && [NO_Q, Positive(r)][1..] == [Positive(r)] && [Positive(r)][1..] == [];
    assert SafeBranch([Positive(r)], bound);
    assert SafeBranch([NO_Q, Positive(r)], bound);
    assert branch[2] in branch && "$z" in SimpleVars(r);
    NoOutputs(branch, {});
  }

  lemma {:induction false} NoOutputs(branch: seq<Atom>, bound: set<string>)
    requires forall a :: a in branch && a.Positive? ==> !a.atom.Arith?
    ensures ArithmeticOutputs(branch, bound) == {}
  {
    if branch != [] {
      assert branch[0] in branch;
      NoOutputs(branch[1..], bound + AtomVars(branch[0]));
    }
  }

  /**
   Facts p(5), q("5"), r("5"), the branch p(x), not (z = x + 0, q(z)), r(z), and the request z = "5":
   the evaluated binding matches, yet the seeded frontier dies out. So integers inside `not` matter.
   */
  lemma TextInsideNegationDiverges() returns (view: View, branch: seq<Atom>, seed: Env)
    ensures SafeBranch(branch, {}) && seed.Keys <= BranchVars(branch) && IntegersRequested(branch, {}, seed)
    ensures EvalBranch(view, [map[]], branch).Success?
    ensures MatchesOf(EvalBranch(view, [map[]], branch).value, seed) != []
    ensures EvalBranch(view, [seed], branch) == Success([])
  {
    branch := [Positive(PredX("p", "$x")), NO_Q, Positive(PredX("r", "$z"))];
    view := map["p" := [[Num(5)]], "q" := [[Text("5")]], "r" := [[Text("5")]]];
    seed := map["$z" := Text("5")];
    TextBranchIsSafe(branch, seed);
    UnseededMatches(view, branch, seed);
    SeededDies(view, branch, seed);
  }

  lemma UnseededMatches(view: View, branch: seq<Atom>, seed: Env)
    requires branch == [Positive(PredX("p", "$x")), NO_Q, Positive(PredX("r", "$z"))]
    requires view == map["p" := [[Num(5)]], "q" := [[Text("5")]], "r" := [[Text("5")]]]
    requires seed == map["$z" := Text("5")]
    ensures EvalBranch(view, [map[]], branch).Success?
    ensures MatchesOf(EvalBranch(view, [map[]], branch).value, seed) != []
  {
    var start: Env := map[];
    var found := start["$x" := Num(5)];
    OneFact(view, start, "p", "$x", Num(5));
    NegationAt(view, found, found["$z" := Num(5)]);
    OneFact(view, found, "r", "$z", Text("5"));
    ThreeAtoms(view, start, found, [found], branch);
    OneMatch(found["$z" := Text("5")], seed);
  }

  lemma OneMatch(both: Env, seed: Env)
    requires Matches(both, seed)
    ensures MatchesOf([both], seed) == [both]
  {
    assert [both][1..] == [];
    assert MatchesOf([both][1..], seed) == [];
  }

  lemma SeededDies(view: View, branch: seq<Atom>, seed: Env)
    requires branch == [Positive(PredX("p", "$x")), NO_Q, Positive(PredX("r", "$z"))]
    requires view == map["p" := [[Num(5)]], "q" := [[Text("5")]], "r" := [[Text("5")]]] && seed == map["$z" := Text("5")]
    ensures EvalBranch(view, [seed], branch) == Success([])
  {
    var joined := seed["$x" := Num(5)];
    OneFact(view, seed, "p", "$x", Num(5));
    assert Coerce(Text("5")) == Some(5) by {
      assert DigitsValue("5"[..0]) == 0;
    }
    NegationAt(view, joined, joined);
    ThreeAtoms(view, seed, joined, [], branch);
  }
}
