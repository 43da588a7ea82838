/**
 A request is read with integers in place of the values requested for arithmetic outputs. Where the
 branch uses those variables through coercion only, the seeded run is the run seeded with that
 reading, with the requested values put back.
 */
module IntegerReadings {
  import opened Wrappers
  import opened WhereEval
  import opened Seeding
  import opened SeededBranches
  import opened SeedingLimits
  import opened Frontiers
  import opened TextRequests

  // Comparisons and arithmetic coerce what they read; no other atom mentions the variables.
  predicate CoercedUse(a: Simple, vars: set<string>) {
    a.Cmp? || a.Arith? || SimpleVars(a) !! vars
  }

  predicate CoercedBody(body: seq<Simple>, vars: set<string>) {
    forall a :: a in body ==> CoercedUse(a, vars)
  }

  predicate CoercedAtom(a: Atom, vars: set<string>) {
    match a
    case Positive(s) => CoercedUse(s, vars)
    case Not(bodies) => forall b :: b in bodies ==> CoercedBody(b, vars)
  }

  predicate CoercedBranch(branch: seq<Atom>, vars: set<string>) {
    forall a :: a in branch ==> CoercedAtom(a, vars)
  }

  // The environment holds the integer of every value in the text.
  predicate ReadsAs(env: Env, text: Env) {
    forall x :: x in text ==> x in env && Coerce(text[x]).Some? && env[x] == Num(Coerce(text[x]).value)
  }

  predicate AllRead(envs: seq<Env>, text: Env) {
    forall e :: e in envs ==> ReadsAs(e, text)
  }

  function Rewritten(envs: seq<Env>, text: Env): seq<Env> {
    if envs == [] then [] else [envs[0] + text] + Rewritten(envs[1..], text)
  }

  function RewrittenResult(r: Envs, text: Env): Envs {
    if r.Failure? then r else Success(Rewritten(r.value, text))
  }

  lemma {:induction false} RewrittenConcat(a: seq<Env>, b: seq<Env>, text: Env)
    ensures Rewritten(a + b, text) == Rewritten(a, text) + Rewritten(b, text)
  {
    if a == [] {
      assert a + b == b;
    } else {
      assert (a + b)[0] == a[0] && (a + b)[1..] == a[1..] + b;
      RewrittenConcat(a[1..], b, text);
    }
  }

  // ---------- one atom ----------

  lemma {:induction false} MatchRewritten(env: Env, terms: seq<Term>, row: Row, text: Env)
    requires |terms| == |row| && TermsVars(terms) !! text.Keys
    ensures MatchRow(env + text, terms, row)
         == var r := MatchRow(env, terms, row); if r.None? then None else Some(r.value + text)
    decreases |terms|
  {
    if terms != [] {
      TermsVarsCons(terms);
      match terms[0]
      case Const(v) => MatchRewritten(env, terms[1..], row[1..], text);
      case Var(x) =>
        if x in env {
          MatchRewritten(env, terms[1..], row[1..], text);
        } else {
          assert (env + text)[x := row[0]] == env[x := row[0]] + text;
          MatchRewritten(env[x := row[0]], terms[1..], row[1..], text);
        }
    }
  }

  lemma {:induction false} MatchRowsRewritten(env: Env, terms: seq<Term>, rows: seq<Row>, text: Env)
    requires forall r :: r in rows ==> |r| == |terms|
    requires TermsVars(terms) !! text.Keys
    ensures MatchRows(env + text, terms, rows) == Rewritten(MatchRows(env, terms, rows), text)
  {
    if rows != [] {
      MatchRewritten(env, terms, rows[0], text);
      MatchRowsRewritten(env, terms, rows[1..], text);
      var first := MatchRow(env, terms, rows[0]);
      RewrittenConcat(if first.Some? then [first.value] else [], MatchRows(env, terms, rows[1..]), text);
      RewrittenOne(if first.Some? then first.value else env, text);
    }
  }

  lemma RewrittenOne(env: Env, text: Env)
    ensures Rewritten([env], text) == [env + text]
  {
    assert [env][1..] == [];
    assert Rewritten([env][1..], text) == [];
  }

  lemma OperandRewritten(env: Env, t: Term, text: Env)
    requires ReadsAs(env, text)
    ensures Operand(env + text, t) == Operand(env, t)
  {
  }

  lemma ComputeRewritten(env: Env, e: Expr, text: Env)
    requires ReadsAs(env, text)
    ensures Compute(env + text, e) == Compute(env, e)
  {
    OperandRewritten(env, e.x, text);
    match e
    case Add(_, y) => OperandRewritten(env, y, text);
    case Sub(_, y) => OperandRewritten(env, y, text);
    case AddC(_, c) => OperandRewritten(env, Const(c), text);
    case MulC(_, c) => OperandRewritten(env, Const(c), text);
    case Neg(_) =>
  }

  lemma ArithRewritten(view: View, env: Env, z: string, e: Expr, text: Env)
    requires ReadsAs(env, text)
    ensures Extend(view, env + text, Arith(z, e)) == RewrittenResult(Extend(view, env, Arith(z, e)), text)
  {
    ComputeRewritten(env, e, text);
    RewrittenOne(env, text);
    if Compute(env, e).Result? && z !in env {
      var n := Num(Compute(env, e).n);
      assert (env + text)[z := n] == env[z := n] + text;
      RewrittenOne(env[z := n], text);
    }
  }

  lemma EqRewritten(view: View, env: Env, l: Term, r: Term, text: Env)
    requires SimpleVars(Eq(l, r)) !! text.Keys
    ensures Extend(view, env + text, Eq(l, r)) == RewrittenResult(Extend(view, env, Eq(l, r)), text)
  {
    RewrittenOne(env, text);
    assert Lookup(env + text, l) == Lookup(env, l) && Lookup(env + text, r) == Lookup(env, r);
    if Lookup(env, l).Some? && Lookup(env, r).None? {
      var v := Lookup(env, l).value;
      assert (env + text)[r.name := v] == env[r.name := v] + text;
      RewrittenOne(env[r.name := v], text);
    }
    if Lookup(env, r).Some? && Lookup(env, l).None? {
      var v := Lookup(env, r).value;
      assert (env + text)[l.name := v] == env[l.name := v] + text;
      RewrittenOne(env[l.name := v], text);
    }
  }

  lemma PredRewritten(view: View, env: Env, pred: string, terms: seq<Term>, text: Env)
    requires TermsVars(terms) !! text.Keys
    ensures ExtendPred(view, env + text, pred, terms) == RewrittenResult(ExtendPred(view, env, pred, terms), text)
  {
    if ExtendPred(view, env, pred, terms).Success? {
      CandidatesEnough(env, terms, view[pred]);
      CandidatesEnough(env + text, terms, view[pred]);
      MatchRowsRewritten(env, terms, view[pred], text);
    }
  }

  lemma ExtendRewritten(view: View, env: Env, a: Simple, text: Env)
    requires ReadsAs(env, text) && CoercedUse(a, text.Keys)
    ensures Extend(view, env + text, a) == RewrittenResult(Extend(view, env, a), text)
  {
    match a
    case Pred(pred, terms) => PredRewritten(view, env, pred, terms, text);
    case Eq(l, r) => EqRewritten(view, env, l, r, text);
    case Arith(z, e) => ArithRewritten(view, env, z, e, text);
    case _ => RewrittenOne(env, text);
  }

  lemma ExtendReads(view: View, env: Env, a: Simple, text: Env)
    requires ReadsAs(env, text) && Extend(view, env, a).Success?
    ensures AllRead(Extend(view, env, a).value, text)
  {
    ExtendGrows(view, env, a);
  }

  // ---------- bodies, negation and branches ----------

  lemma {:induction false} ExtendAllRewritten(view: View, envs: seq<Env>, a: Simple, text: Env)
    requires AllRead(envs, text) && CoercedUse(a, text.Keys)
    ensures ExtendAll(view, Rewritten(envs, text), a) == RewrittenResult(ExtendAll(view, envs, a), text)
    ensures ExtendAll(view, envs, a).Success? ==> AllRead(ExtendAll(view, envs, a).value, text)
  {
    if envs != [] {
      assert envs[0] in envs;
      ExtendRewritten(view, envs[0], a, text);
      ExtendAllRewritten(view, envs[1..], a, text);
      var first, rest := Extend(view, envs[0], a), ExtendAll(view, envs[1..], a);
      if first.Success? && rest.Success? {
        ExtendReads(view, envs[0], a, text);
        RewrittenConcat(first.value, rest.value, text);
      }
      assert Rewritten(envs, text)[1..] == Rewritten(envs[1..], text);
    }
  }

  lemma {:induction false} EvalSimpleRewritten(view: View, envs: seq<Env>, body: seq<Simple>, text: Env)
    requires AllRead(envs, text) && CoercedBody(body, text.Keys)
    ensures EvalSimple(view, Rewritten(envs, text), body) == RewrittenResult(EvalSimple(view, envs, body), text)
    decreases |body|
  {
    if envs == [] || body == [] {
    } else {
      assert body[0] in body;
      ExtendAllRewritten(view, envs, body[0], text);
      var next := ExtendAll(view, envs, body[0]);
      if next.Success? {
        EvalSimpleRewritten(view, next.value, body[1..], text);
      }
    }
  }

  lemma {:induction false} SomeBodyRewritten(view: View, env: Env, bodies: seq<seq<Simple>>, text: Env)
    requires ReadsAs(env, text) && forall b :: b in bodies ==> CoercedBody(b, text.Keys)
    ensures SomeBodyHolds(view, env + text, bodies) == SomeBodyHolds(view, env, bodies)
  {
    if bodies != [] {
      assert bodies[0] in bodies;
      RewrittenOne(env, text);
      EvalSimpleRewritten(view, [env], bodies[0], text);
      SomeBodyRewritten(view, env, bodies[1..], text);
      var found := EvalSimple(view, [env], bodies[0]);
      assert found.Success? ==> (Rewritten(found.value, text) == [] <==> found.value == []);
    }
  }

  lemma ExtendAtomRewritten(view: View, env: Env, a: Atom, text: Env)
    requires ReadsAs(env, text) && CoercedAtom(a, text.Keys)
    ensures ExtendAtom(view, env + text, a) == RewrittenResult(ExtendAtom(view, env, a), text)
    ensures ExtendAtom(view, env, a).Success? ==> AllRead(ExtendAtom(view, env, a).value, text)
  {
    match a
    case Positive(s) =>
      ExtendRewritten(view, env, s, text);
      if Extend(view, env, s).Success? {
        ExtendReads(view, env, s, text);
      }
    case Not(bodies) =>
      SomeBodyRewritten(view, env, bodies, text);
      RewrittenOne(env, text);
      assert (env + text).Keys == env.Keys;
      assert Correlated(env + text, bodies) <==> Correlated(env, bodies);
  }

  lemma {:induction false} FrontierRewritten(view: View, envs: seq<Env>, a: Atom, text: Env)
    requires AllRead(envs, text) && CoercedAtom(a, text.Keys)
    ensures ExtendFrontier(view, Rewritten(envs, text), a) == RewrittenResult(ExtendFrontier(view, envs, a), text)
    ensures ExtendFrontier(view, envs, a).Success? ==> AllRead(ExtendFrontier(view, envs, a).value, text)
  {
    if envs != [] {
      assert envs[0] in envs;
      ExtendAtomRewritten(view, envs[0], a, text);
      FrontierRewritten(view, envs[1..], a, text);
      var first, rest := ExtendAtom(view, envs[0], a), ExtendFrontier(view, envs[1..], a);
      if first.Success? && rest.Success? {
        RewrittenConcat(first.value, rest.value, text);
      }
      assert Rewritten(envs, text)[1..] == Rewritten(envs[1..], text);
    }
  }

  /** The run from the requested values is the run from their integers, with the values put back. */
  lemma {:induction false} BranchRewritten(view: View, envs: seq<Env>, branch: seq<Atom>, text: Env)
    requires AllRead(envs, text) && CoercedBranch(branch, text.Keys)
    ensures EvalBranch(view, Rewritten(envs, text), branch) == RewrittenResult(EvalBranch(view, envs, branch), text)
    decreases |branch|
  {
    if envs == [] || branch == [] {
    } else {
      assert branch[0] in branch;
      FrontierRewritten(view, envs, branch[0], text);
      var next := ExtendFrontier(view, envs, branch[0]);
      if next.Success? {
        BranchRewritten(view, next.value, branch[1..], text);
      }
    }
  }

  // ---------- reading the request ----------

  // The outputs of arithmetic that are requested as something else than an integer.
  function TextOutputs(branch: seq<Atom>, seed: Env): set<string> {
    set z | z in ArithmeticOutputs(branch, {}) && z in seed && !seed[z].Num?
  }

  predicate Coercible(seed: Env, vars: set<string>) {
    forall x :: x in vars && x in seed ==> Coerce(seed[x]).Some?
  }

  function IntegerReading(seed: Env, vars: set<string>): Env {
    map x | x in seed :: if x in vars && Coerce(seed[x]).Some? then Num(Coerce(seed[x]).value) else seed[x]
  }

  function TextPart(seed: Env, vars: set<string>): Env {
    map x | x in seed && x in vars :: seed[x]
  }

  lemma {:induction false} NegationScopedKeys(branch: seq<Atom>, bound: set<string>, a: Env, b: Env)
    requires a.Keys == b.Keys && NegationScoped(branch, bound, a)
    ensures NegationScoped(branch, bound, b)
  {
    if branch != [] {
      NegationScopedKeys(branch[1..], bound + AtomVars(branch[0]), a, b);
    }
  }

  lemma ReadingRestores(seed: Env, vars: set<string>)
    requires Coercible(seed, vars)
    ensures ReadsAs(IntegerReading(seed, vars), TextPart(seed, vars))
    ensures IntegerReading(seed, vars) + TextPart(seed, vars) == seed
  {
  }

  /** The seeded frontier: the environments that agree with the integer reading, with the request put back. */
  lemma PrefixReading(view: View, branch: seq<Atom>, seed: Env, k: nat, vars: set<string>)
    requires SafeBranch(branch, {}) && NegationScoped(branch, {}, seed) && k <= |branch|
    requires EvalBranch(view, [map[]], branch[..k]).Success?
    requires vars == TextOutputs(branch[..k], seed) && Coercible(seed, vars) && CoercedBranch(branch[..k], vars)
    ensures EvalBranch(view, [seed], branch[..k])
         == Success(Rewritten(MergeAll(EvalBranch(view, [map[]], branch[..k]).value, IntegerReading(seed, vars)), TextPart(seed, vars)))
    ensures forall u :: u in EvalBranch(view, [map[]], branch[..k]).value ==> u.Keys == BranchVars(branch[..k])
  {
    var reading, text := IntegerReading(seed, vars), TextPart(seed, vars);
    NegationScopedKeys(branch, {}, seed, reading);
    PrefixSeeded(view, branch, reading, k);
    ReadingRestores(seed, vars);
    RewrittenOne(reading, text);
    assert text.Keys <= vars;
    FewerCoerced(branch[..k], vars, text.Keys);
    BranchRewritten(view, [reading], branch[..k], text);
  }

  lemma FewerCoerced(branch: seq<Atom>, vars: set<string>, fewer: set<string>)
    requires CoercedBranch(branch, vars) && fewer <= vars
    ensures CoercedBranch(branch, fewer)
  {
  }

  // ---------- the first request that stands for no integer ----------

  predicate Uncoercible(a: Atom, bound: set<string>, seed: Env) {
    && a.Positive? && a.atom.Arith?
    && a.atom.output !in bound && a.atom.output in seed && Coerce(seed[a.atom.output]).None?
  }

  function UncoercibleAt(branch: seq<Atom>, bound: set<string>, seed: Env): (k: nat)
    ensures k <= |branch|
  {
    if branch == [] || Uncoercible(branch[0], bound, seed) then 0
    else 1 + UncoercibleAt(branch[1..], bound + AtomVars(branch[0]), seed)
  }

  lemma {:induction false} UncoercibleFirst(branch: seq<Atom>, bound: set<string>, seed: Env)
    ensures var k := UncoercibleAt(branch, bound, seed);
      && Coercible(seed, ArithmeticOutputs(branch[..k], bound))
      && (k < |branch| ==> Uncoercible(branch[k], bound + BranchVars(branch[..k]), seed))
  {
    var k := UncoercibleAt(branch, bound, seed);
    var prefix := branch[..k];
    if k == 0 {
      assert bound + BranchVars(prefix) == bound;
    } else {
      var bound' := bound + AtomVars(branch[0]);
      UncoercibleFirst(branch[1..], bound', seed);
      assert prefix[0] == branch[0] && prefix[1..] == branch[1..][..k - 1];
      BranchVarsCons(prefix);
      assert bound + BranchVars(prefix) == bound' + BranchVars(prefix[1..]);
      assert k < |branch| ==> branch[1..][k - 1] == branch[k];
    }
  }

  lemma {:induction false} RewrittenEmpty(envs: seq<Env>, text: Env)
    ensures Rewritten(envs, text) == [] <==> envs == []
    ensures envs != [] ==> Rewritten(envs, text)[0] == envs[0] + text
  {
  }

  lemma {:induction false} MergeHead(us: seq<Env>, seed: Env)
    requires MergeAll(us, seed) != []
    ensures exists u :: u in us && Compatible(u, seed) && MergeAll(us, seed)[0] == u + seed
  {
    if Compatible(us[0], seed) {
      assert us[0] in us && MergeAll(us, seed)[0] == us[0] + seed;
    } else {
      assert MergeAll(us, seed) == MergeAll(us[1..], seed);
      MergeHead(us[1..], seed);
    }
  }

  // An environment in which the output is requested and stands for no integer.
  lemma UncoercibleRaises(view: View, envs: seq<Env>, z: string, e: Expr)
    requires envs != [] && Inputs(e) <= envs[0].Keys && z in envs[0] && Coerce(envs[0][z]).None?
    ensures ExtendFrontier(view, envs, Positive(Arith(z, e))).Failure?
  {
    LookupKnown(envs[0], e.x);
  }

  lemma UncoercibleStops(view: View, branch: seq<Atom>, seed: Env, k: nat, vars: set<string>)
    requires SafeBranch(branch, {}) && NegationScoped(branch, {}, seed) && k < |branch|
    requires EvalBranch(view, [map[]], branch[..k]).Success?
    requires vars == TextOutputs(branch[..k], seed) && Coercible(seed, vars) && CoercedBranch(branch[..k], vars)
    requires Uncoercible(branch[k], BranchVars(branch[..k]), seed)
    ensures var us := EvalBranch(view, [map[]], branch[..k]).value;
      if MergeAll(us, IntegerReading(seed, vars)) == [] then EvalBranch(view, [seed], branch) == Success([])
      else EvalBranch(view, [seed], branch).Failure?
  {
    var reading, text := IntegerReading(seed, vars), TextPart(seed, vars);
    var us := EvalBranch(view, [map[]], branch[..k]).value;
    var merged := MergeAll(us, reading);
    PrefixReading(view, branch, seed, k, vars);
    PrefixSafe(branch, {}, seed, k);
    assert {} + BranchVars(branch[..k]) == BranchVars(branch[..k]);
    EvalBranchSplit(view, [seed], branch, k);
    RewrittenEmpty(merged, text);
    if merged != [] {
      MergeHead(us, reading);
      var u :| u in us && merged[0] == u + reading;
      var z, e := branch[k].atom.output, branch[k].atom.expr;
      var envs := Rewritten(merged, text);
      assert envs[0] == u + reading + text && envs[0][z] == seed[z];
      UncoercibleRaises(view, envs, z, e);
      assert branch[k..][0] == branch[k];
    }
  }

  // ---------- when seeding is filtering ----------

  // No environment that the unseeded run reaches before the first request that stands for no integer
  // agrees with the integer reading. Without such a request these are the evaluated bindings.
  ghost predicate NoneReads(view: View, branch: seq<Atom>, seed: Env) {
    var k := UncoercibleAt(branch, {}, seed);
    var us := EvalBranch(view, [map[]], branch[..k]);
    us.Success? ==> forall u :: u in us.value ==> !Compatible(u, IntegerReading(seed, TextOutputs(branch[..k], seed)))
  }

  lemma {:induction false} TextNeverMatches(view: View, branch: seq<Atom>, seed: Env)
    requires EvalBranch(view, [map[]], branch).Success? && !IntegersRequested(branch, {}, seed)
    ensures MatchesOf(EvalBranch(view, [map[]], branch).value, seed) == []
  {
    var all := EvalBranch(view, [map[]], branch).value;
    OutputsAreIntegers(view, [map[]], branch, {}, {});
    forall e | e in all
      ensures !Matches(e, seed)
    {
      var z :| z in ArithmeticOutputs(branch, {}) && z in seed && !seed[z].Num?;
      assert z in {} + ArithmeticOutputs(branch, {});
    }
    NoMatches(all, seed);
  }

  lemma ReadingDecides(view: View, branch: seq<Atom>, seed: Env)
    requires SafeBranch(branch, {}) && NegationScoped(branch, {}, seed) && EvalBranch(view, [map[]], branch).Success?
    requires CoercedBranch(branch, TextOutputs(branch, seed))
    ensures EvalBranch(view, [seed], branch) == Success([]) <==> NoneReads(view, branch, seed)
  {
    var k := UncoercibleAt(branch, {}, seed);
    var vars := TextOutputs(branch[..k], seed);
    UncoercibleFirst(branch, {}, seed);
    PrefixOutputs(branch, {}, k);
    PrefixEvaluates(view, [map[]], branch, k);
    FewerCoerced(branch, TextOutputs(branch, seed), vars);
    assert CoercedBranch(branch[..k], vars) by {
      assert forall a :: a in branch[..k] ==> a in branch;
    }
    assert {} + BranchVars(branch[..k]) == BranchVars(branch[..k]);
    var us := EvalBranch(view, [map[]], branch[..k]).value;
    MergeEmpty(us, IntegerReading(seed, vars));
    if k < |branch| {
      UncoercibleStops(view, branch, seed, k, vars);
    } else {
      assert branch[..k] == branch;
      PrefixReading(view, branch, seed, k, vars);
      RewrittenEmpty(MergeAll(us, IntegerReading(seed, vars)), TextPart(seed, vars));
    }
  }

  /**
   When seeding is filtering. It is if integers are requested for all arithmetic outputs. If not, no
   evaluated binding matches, and where the branch only coerces those outputs the seeded frontier
   dies out exactly if no environment reads as requested.
   */
  lemma SeedingExactness(view: View, branch: seq<Atom>, seed: Env)
    requires SafeBranch(branch, {}) && NegationScoped(branch, {}, seed)
    requires EvalBranch(view, [map[]], branch).Success? && seed.Keys <= BranchVars(branch)
    ensures IntegersRequested(branch, {}, seed) ==>
      EvalBranch(view, [seed], branch) == Success(MatchesOf(EvalBranch(view, [map[]], branch).value, seed))
    ensures !IntegersRequested(branch, {}, seed) ==> MatchesOf(EvalBranch(view, [map[]], branch).value, seed) == []
    ensures CoercedBranch(branch, TextOutputs(branch, seed)) ==>
      (EvalBranch(view, [seed], branch) == Success(MatchesOf(EvalBranch(view, [map[]], branch).value, seed))
       <==> IntegersRequested(branch, {}, seed) || NoneReads(view, branch, seed))
  {
    if IntegersRequested(branch, {}, seed) {
      SafeIsSeedSafe(branch, {}, seed);
      SeedingEqualsFiltering(view, branch, seed);
    } else {
      TextNeverMatches(view, branch, seed);
      if CoercedBranch(branch, TextOutputs(branch, seed)) {
        ReadingDecides(view, branch, seed);
      }
    }
  }

  /** If every requested value stands for an integer, the condition is about the evaluated bindings alone. */
  lemma NoneReadsBindings(view: View, branch: seq<Atom>, seed: Env)
    requires EvalBranch(view, [map[]], branch).Success? && seed.Keys <= BranchVars(branch)
    requires Coercible(seed, ArithmeticOutputs(branch, {}))
    ensures NoneReads(view, branch, seed)
      <==> MatchesOf(EvalBranch(view, [map[]], branch).value, IntegerReading(seed, TextOutputs(branch, seed))) == []
  {
    var k := UncoercibleAt(branch, {}, seed);
    CoercibleEverywhere(branch, {}, seed);
    BranchGrows(view, [map[]], branch, {});
    assert branch[..k] == branch;
    var all, reading := EvalBranch(view, [map[]], branch).value, IntegerReading(seed, TextOutputs(branch, seed));
    MergeEmpty(all, reading);
    MergeIsFilter(all, reading);
  }

  lemma {:induction false} CoercibleEverywhere(branch: seq<Atom>, bound: set<string>, seed: Env)
    requires Coercible(seed, ArithmeticOutputs(branch, bound))
    ensures UncoercibleAt(branch, bound, seed) == |branch|
  {
    if branch != [] {
      assert Coercible(seed, ArithmeticOutputs(branch[1..], bound + AtomVars(branch[0])));
      CoercibleEverywhere(branch[1..], bound + AtomVars(branch[0]), seed);
    }
  }
}
