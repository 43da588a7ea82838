/**
 Starting the evaluator from a requested binding instead of the empty environment: one extension
 step from the merged environment yields exactly the merged extensions.
 */
module Seeding {
  import opened Wrappers
  import opened WhereEval

  predicate Extends(e: Env, e': Env) {
    forall k :: k in e ==> k in e' && e'[k] == e[k]
  }

  predicate Compatible(e: Env, seed: Env) {
    forall k :: k in e && k in seed ==> e[k] == seed[k]
  }

  function Restrict(env: Env, vars: set<string>): Env {
    map x | x in env && x in vars :: env[x]
  }

  // The environments that agree with the seed, each with the seed merged in.
  function MergeAll(envs: seq<Env>, seed: Env): seq<Env> {
    if envs == [] then []
    else (if Compatible(envs[0], seed) then [envs[0] + seed] else []) + MergeAll(envs[1..], seed)
  }

  // The seed does not make an atom's inputs known earlier than the branch itself does, and it
  // gives an integer to a variable that the branch first binds by arithmetic.
  predicate SeedSafe(a: Simple, bound: set<string>, seed: Env) {
    match a
    case Pred(_, _) => true
    case Eq(l, r) => Known(l, bound) || Known(r, bound) || SimpleVars(a) !! seed.Keys
    case Ne(_, _) => SimpleVars(a) * seed.Keys <= bound
    case Cmp(_, _, _) => SimpleVars(a) * seed.Keys <= bound
    case In(_, _) => SimpleVars(a) * seed.Keys <= bound
    case Arith(z, e) => Inputs(e) * seed.Keys <= bound && (z in bound || z !in seed || seed[z].Num?)
  }

  // ---------- rows ----------

  lemma TermsVarsCons(terms: seq<Term>)
    requires terms != []
    ensures TermsVars(terms) == TermVars(terms[0]) + TermsVars(terms[1..])
  {
    assert terms == [terms[0]] + terms[1..];
    assert forall t :: t in terms <==> t == terms[0] || t in terms[1..];
  }

  lemma {:induction false} MatchExtends(env: Env, terms: seq<Term>, row: Row)
    requires |terms| == |row|
    ensures var r := MatchRow(env, terms, row);
      r.Some? ==> Extends(env, r.value) && r.value.Keys == env.Keys + TermsVars(terms)
    decreases |terms|
  {
    if terms == [] {
    } else {
      TermsVarsCons(terms);
      match terms[0]
      case Const(v) => MatchExtends(env, terms[1..], row[1..]);
      case Var(x) => MatchExtends(if x in env then env else env[x := row[0]], terms[1..], row[1..]);
    }
  }

  lemma {:induction false} MatchAgrees(env: Env, terms: seq<Term>, row: Row)
    requires |terms| == |row| && MatchRow(env, terms, row).Some?
    ensures Agrees(env, terms, row)
    decreases |terms|
  {
    if terms != [] {
      var env' := if terms[0].Var? && terms[0].name !in env then env[terms[0].name := row[0]] else env;
      MatchAgrees(env', terms[1..], row[1..]);
      forall i | 0 <= i < |terms| && Lookup(env, terms[i]).Some?
        ensures Lookup(env, terms[i]).value == row[i]
      {
        if i > 0 {
          assert terms[1..][i - 1] == terms[i];
          assert Lookup(env', terms[1..][i - 1]) == Lookup(env, terms[i]);
        }
      }
    }
  }

  /** The lookup index never hides a matching row: scanning the candidates is scanning all rows. */
  lemma {:induction false} CandidatesEnough(env: Env, terms: seq<Term>, rows: seq<Row>)
    requires forall r :: r in rows ==> |r| == |terms|
    ensures MatchRows(env, terms, Candidates(env, terms, rows)) == MatchRows(env, terms, rows)
  {
    if rows != [] {
      CandidatesEnough(env, terms, rows[1..]);
      if MatchRow(env, terms, rows[0]).Some? {
        MatchAgrees(env, terms, rows[0]);
      }
      var rest := Candidates(env, terms, rows[1..]);
      if Agrees(env, terms, rows[0]) {
        assert Candidates(env, terms, rows)[1..] == rest;
      } else {
        assert Candidates(env, terms, rows) == rest;
        assert MatchRow(env, terms, rows[0]).None?;
      }
    }
  }

  lemma {:induction false} MatchSeeded(env: Env, seed: Env, terms: seq<Term>, row: Row)
    requires |terms| == |row| && Compatible(env, seed)
    ensures var r := MatchRow(env, terms, row);
      MatchRow(env + seed, terms, row)
        == if r.Some? && Compatible(r.value, seed) then Some(r.value + seed) else None
    decreases |terms|
  {
    if terms == [] {
    } else {
      match terms[0]
      case Const(v) => MatchSeeded(env, seed, terms[1..], row[1..]);
      case Var(x) =>
        if x in env {
          MatchSeeded(env, seed, terms[1..], row[1..]);
        } else if x in seed && seed[x] != row[0] {
          MatchExtends(env[x := row[0]], terms[1..], row[1..]);
        } else {
          var env' := env[x := row[0]];
          MatchSeeded(env', seed, terms[1..], row[1..]);
          assert env' + seed == if x in seed then env + seed else (env + seed)[x := row[0]];
        }
    }
  }

  lemma MergeAllCons(e: Env, rest: seq<Env>, seed: Env)
    ensures MergeAll([e] + rest, seed) == (if Compatible(e, seed) then [e + seed] else []) + MergeAll(rest, seed)
  {
    assert ([e] + rest)[1..] == rest;
  }

  lemma {:induction false} MergeAllConcat(a: seq<Env>, b: seq<Env>, seed: Env)
    ensures MergeAll(a + b, seed) == MergeAll(a, seed) + MergeAll(b, seed)
  {
    if a == [] {
      assert a + b == b;
    } else {
      assert a + b == [a[0]] + (a[1..] + b) && a == [a[0]] + a[1..];
      MergeAllConcat(a[1..], b, seed);
      MergeAllCons(a[0], a[1..] + b, seed);
      MergeAllCons(a[0], a[1..], seed);
    }
  }

  lemma {:induction false} MatchRowsSeeded(env: Env, seed: Env, terms: seq<Term>, rows: seq<Row>)
    requires forall r :: r in rows ==> |r| == |terms|
    requires Compatible(env, seed)
    ensures MatchRows(env + seed, terms, rows) == MergeAll(MatchRows(env, terms, rows), seed)
  {
    if rows != [] {
      MatchSeeded(env, seed, terms, rows[0]);
      MatchRowsSeeded(env, seed, terms, rows[1..]);
      var first := MatchRow(env, terms, rows[0]);
      MergeAllConcat(if first.Some? then [first.value] else [], MatchRows(env, terms, rows[1..]), seed);
    }
  }

  lemma {:induction false} MatchRowsExtend(env: Env, terms: seq<Term>, rows: seq<Row>)
    requires forall r :: r in rows ==> |r| == |terms|
    ensures forall e :: e in MatchRows(env, terms, rows) ==> Extends(env, e) && e.Keys == env.Keys + TermsVars(terms)
  {
    if rows != [] {
      MatchExtends(env, terms, rows[0]);
      MatchRowsExtend(env, terms, rows[1..]);
    }
  }

  // ---------- one atom ----------

  lemma LookupKnown(env: Env, t: Term)
    ensures Lookup(env, t).Some? <==> TermVars(t) <= env.Keys
  {
  }

  lemma LookupSeeded(env: Env, seed: Env, t: Term)
    requires Compatible(env, seed) && TermVars(t) * seed.Keys <= env.Keys
    ensures Lookup(env + seed, t) == Lookup(env, t)
  {
  }

  lemma ComputeSeeded(env: Env, seed: Env, e: Expr)
    requires Compatible(env, seed) && Inputs(e) * seed.Keys <= env.Keys
    ensures Compute(env + seed, e) == Compute(env, e)
  {
    LookupSeeded(env, seed, e.x);
    match e
    case Add(_, y) => LookupSeeded(env, seed, y);
    case Sub(_, y) => LookupSeeded(env, seed, y);
    case _ =>
  }

  lemma ComputeKnown(env: Env, e: Expr)
    requires Compute(env, e).Result?
    ensures Inputs(e) <= env.Keys
  {
  }

  /** Every extension keeps the environment and binds exactly the atom's variables. */
  lemma ExtendGrows(view: View, env: Env, a: Simple)
    requires Extend(view, env, a).Success?
    ensures forall e :: e in Extend(view, env, a).value ==> Extends(env, e) && e.Keys == env.Keys + SimpleVars(a)
  {
    match a
    case Pred(pred, terms) =>
      CandidatesEnough(env, terms, view[pred]);
      MatchRowsExtend(env, terms, view[pred]);
    case Arith(z, e) =>
      if Compute(env, e).Result? {
        ComputeKnown(env, e);
      }
    case _ =>
  }

  lemma SingleMerge(e: Env, seed: Env)
    ensures MergeAll([e], seed) == if Compatible(e, seed) then [e + seed] else []
  {
    assert [e][1..] == [];
    assert MergeAll([], seed) == [];
  }

  lemma BindMerge(env: Env, seed: Env, x: string, v: Value)
    requires Compatible(env, seed) && x !in env
    ensures MergeAll([env[x := v]], seed)
         == if x in seed then (if seed[x] == v then [env + seed] else []) else [(env + seed)[x := v]]
  {
    SingleMerge(env[x := v], seed);
    assert x in seed && seed[x] == v ==> env[x := v] + seed == env + seed;
    assert x !in seed ==> env[x := v] + seed == (env + seed)[x := v];
    assert Compatible(env[x := v], seed) <==> (x in seed ==> seed[x] == v);
  }

  /** Seeding commutes with one extension step. */
  lemma ExtendSeeded(view: View, env: Env, seed: Env, a: Simple)
    requires Compatible(env, seed) && SeedSafe(a, env.Keys, seed)
    requires Extend(view, env, a).Success?
    ensures Extend(view, env + seed, a) == Success(MergeAll(Extend(view, env, a).value, seed))
  {
    SingleMerge(env, seed);
    match a
    case Pred(pred, terms) =>
      CandidatesEnough(env, terms, view[pred]);
      CandidatesEnough(env + seed, terms, view[pred]);
      MatchRowsSeeded(env, seed, terms, view[pred]);
    case Eq(l, r) => EqSeeded(view, env, seed, l, r);
    case Ne(l, r) =>
      LookupSeeded(env, seed, l);
      LookupSeeded(env, seed, r);
    case Cmp(op, l, r) =>
      LookupSeeded(env, seed, l);
      LookupSeeded(env, seed, r);
    case In(x, values) =>
    case Arith(z, e) =>
      ComputeSeeded(env, seed, e);
      if Compute(env, e).Result? && z !in env {
        BindMerge(env, seed, z, Num(Compute(env, e).n));
      }
  }

  lemma EqSeeded(view: View, env: Env, seed: Env, l: Term, r: Term)
    requires Compatible(env, seed) && SeedSafe(Eq(l, r), env.Keys, seed)
    ensures Extend(view, env + seed, Eq(l, r)) == Success(MergeAll(Extend(view, env, Eq(l, r)).value, seed))
  {
    SingleMerge(env, seed);
    LookupKnown(env, l);
    LookupKnown(env, r);
    if Known(l, env.Keys) && !Known(r, env.Keys) {
      LookupSeeded(env, seed, l);
      BindMerge(env, seed, r.name, Lookup(env, l).value);
    } else if Known(r, env.Keys) && !Known(l, env.Keys) {
      LookupSeeded(env, seed, r);
      BindMerge(env, seed, l.name, Lookup(env, r).value);
    } else {
      LookupSeeded(env, seed, l);
      LookupSeeded(env, seed, r);
    }
  }
}
