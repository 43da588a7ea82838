/** One extension step finds exactly the satisfying extensions, and raises exactly where the atom does. */
module AtomMeaning {
  import opened Wrappers
  import opened WhereEval
  import opened Seeding
  import opened Semantics

  // An arithmetic atom that binds its output binds an integer.
  ghost predicate BindsInteger(a: Simple, bound: set<string>, x: Env) {
    a.Arith? && a.output !in bound ==> a.output in x && x[a.output].Num?
  }

  ghost predicate NotInteger(u: Env, t: Term) {
    exists v :: Denotes(u, t, v) && Coerce(v).None?
  }

  // The predicate is unknown or has a fact of another arity; or something that has to be an integer is not.
  ghost predicate RaisesOn(view: View, u: Env, a: Simple) {
    match a
    case Pred(pred, terms) => pred !in view || exists row :: row in view[pred] && |row| != |terms|
    case Cmp(_, l, r) => NotInteger(u, l) || NotInteger(u, r)
    case Arith(z, e) =>
      NotInteger(u, e.x) || (e.Add? && NotInteger(u, e.y)) || (e.Sub? && NotInteger(u, e.y)) || NotInteger(u, Var(z))
    case _ => false
  }

  lemma DenotesLookup(u: Env, t: Term)
    ensures forall v :: Denotes(u, t, v) <==> Lookup(u, t) == Some(v)
  {
  }

  lemma DenotesOperand(u: Env, t: Term)
    ensures forall n :: DenotesInt(u, t, n) <==> Operand(u, t) == Result(n)
    ensures NotInteger(u, t) <==> Operand(u, t) == Raises
    ensures Operand(u, t) == Unbound <==> !(TermVars(t) <= u.Keys)
  {
    DenotesLookup(u, t);
    if Lookup(u, t).Some? {
      assert Denotes(u, t, Lookup(u, t).value);
    }
  }

  // What an expression computes when its operands are integers.
  lemma ComputedIs(u: Env, e: Expr)
    ensures forall n :: ComputesInt(u, e, n) <==> Compute(u, e) == Result(n)
  {
    DenotesOperand(u, e.x);
    match e
    case Add(_, y) => DenotesOperand(u, y);
    case Sub(_, y) => DenotesOperand(u, y);
    case AddC(_, c) => ConstantOperand(u, c);
    case MulC(_, c) => ConstantOperand(u, c);
    case Neg(_) =>
  }

  lemma ConstantOperand(u: Env, c: Value)
    ensures forall n :: Coerce(c) == Some(n) <==> Operand(u, Const(c)) == Result(n)
  {
  }

  // ---------- rows ----------

  lemma {:induction false} MatchExact(u: Env, terms: seq<Term>, row: Row, x: Env)
    requires |terms| == |row|
    ensures MatchRow(u, terms, row) == Some(x)
      <==> Extends(u, x) && x.Keys == u.Keys + TermsVars(terms) && FitsRow(x, terms, row)
    decreases |terms|
  {
    if terms == [] {
      assert Extends(u, x) && x.Keys == u.Keys + TermsVars(terms) ==> x == u;
    } else {
      var rest, later := terms[1..], row[1..];
      TermsVarsCons(terms);
      FitsRowCons(x, terms, row);
      match terms[0]
      case Const(v) => MatchExact(u, rest, later, x);
      case Var(y) =>
        if y in u {
          MatchExact(u, rest, later, x);
        } else {
          var u' := u[y := row[0]];
          MatchExact(u', rest, later, x);
          assert Extends(u', x) <==> Extends(u, x) && y in x && x[y] == row[0];
        }
    }
  }

  lemma FitsRowCons(x: Env, terms: seq<Term>, row: Row)
    requires |terms| == |row| && terms != []
    ensures FitsRow(x, terms, row) <==> Denotes(x, terms[0], row[0]) && FitsRow(x, terms[1..], row[1..])
  {
    if Denotes(x, terms[0], row[0]) && FitsRow(x, terms[1..], row[1..]) {
      forall i | 0 <= i < |terms|
        ensures Denotes(x, terms[i], row[i])
      {
        if i > 0 {
          assert terms[1..][i - 1] == terms[i] && row[1..][i - 1] == row[i];
        }
      }
    }
    if FitsRow(x, terms, row) {
      forall i | 0 <= i < |terms| - 1
        ensures Denotes(x, terms[1..][i], row[1..][i])
      {
        assert Denotes(x, terms[i + 1], row[i + 1]);
      }
    }
  }

  lemma {:induction false} RowsExact(u: Env, terms: seq<Term>, rows: seq<Row>, x: Env)
    requires forall r :: r in rows ==> |r| == |terms|
    ensures x in MatchRows(u, terms, rows)
      <==> Extends(u, x) && x.Keys == u.Keys + TermsVars(terms) && exists row :: row in rows && FitsRow(x, terms, row)
  {
    if rows != [] {
      RowsExact(u, terms, rows[1..], x);
      MatchExact(u, terms, rows[0], x);
      assert forall r :: r in rows <==> r == rows[0] || r in rows[1..];
    }
  }

  // ---------- one step ----------

  lemma PredExact(view: View, u: Env, pred: string, terms: seq<Term>, x: Env)
    requires ExtendPred(view, u, pred, terms).Success?
    ensures x in ExtendPred(view, u, pred, terms).value
      <==> Extends(u, x) && x.Keys == u.Keys + TermsVars(terms) && Satisfies(view, x, Pred(pred, terms))
  {
    CandidatesEnough(u, terms, view[pred]);
    RowsExact(u, terms, view[pred], x);
  }

  lemma SameEnv(u: Env, x: Env)
    ensures Extends(u, x) && x.Keys == u.Keys <==> x == u
  {
  }

  lemma BoundOne(u: Env, y: string, v: Value, x: Env)
    requires y !in u
    ensures x == u[y := v] <==> Extends(u, x) && x.Keys == u.Keys + {y} && x[y] == v
  {
    if Extends(u, x) && x.Keys == u.Keys + {y} && x[y] == v {
      assert x == u[y := v];
    }
  }

  lemma EqExact(view: View, u: Env, l: Term, r: Term, x: Env)
    requires Known(l, u.Keys) || Known(r, u.Keys)
    ensures x in Extend(view, u, Eq(l, r)).value
      <==> Extends(u, x) && x.Keys == u.Keys + SimpleVars(Eq(l, r)) && Satisfies(view, x, Eq(l, r))
  {
    SameEnv(u, x);
    if Lookup(u, l).Some? && Lookup(u, r).Some? {
      assert u.Keys + SimpleVars(Eq(l, r)) == u.Keys;
      DenotesLookup(u, l);
      DenotesLookup(u, r);
    } else if Lookup(u, l).Some? {
      BoundOne(u, r.name, Lookup(u, l).value, x);
      assert u.Keys + SimpleVars(Eq(l, r)) == u.Keys + {r.name};
      if Extends(u, x) && x.Keys == u.Keys + {r.name} {
        assert Lookup(x, l) == Lookup(u, l);
        DenotesLookup(x, l);
        DenotesLookup(x, r);
      }
    } else {
      BoundOne(u, l.name, Lookup(u, r).value, x);
      assert u.Keys + SimpleVars(Eq(l, r)) == u.Keys + {l.name};
      if Extends(u, x) && x.Keys == u.Keys + {l.name} {
        assert Lookup(x, r) == Lookup(u, r);
        DenotesLookup(x, l);
        DenotesLookup(x, r);
      }
    }
  }

  lemma NeExact(view: View, u: Env, l: Term, r: Term, x: Env)
    requires Known(l, u.Keys) && Known(r, u.Keys)
    ensures x in Extend(view, u, Ne(l, r)).value
      <==> Extends(u, x) && x.Keys == u.Keys + SimpleVars(Ne(l, r)) && Satisfies(view, x, Ne(l, r))
  {
    SameEnv(u, x);
    assert u.Keys + SimpleVars(Ne(l, r)) == u.Keys;
    DenotesLookup(u, l);
    DenotesLookup(u, r);
  }

  lemma CmpExact(view: View, u: Env, op: CmpOp, l: Term, r: Term, x: Env)
    requires Known(l, u.Keys) && Known(r, u.Keys)
    ensures Extend(view, u, Cmp(op, l, r)).Failure? <==> RaisesOn(view, u, Cmp(op, l, r))
    ensures Extend(view, u, Cmp(op, l, r)).Success? ==>
      (x in Extend(view, u, Cmp(op, l, r)).value
       <==> Extends(u, x) && x.Keys == u.Keys + SimpleVars(Cmp(op, l, r)) && Satisfies(view, x, Cmp(op, l, r)))
  {
    SameEnv(u, x);
    assert u.Keys + SimpleVars(Cmp(op, l, r)) == u.Keys;
    DenotesOperand(u, l);
    DenotesOperand(u, r);
  }

  lemma InExact(view: View, u: Env, y: string, values: seq<Value>, x: Env)
    requires y in u
    ensures x in Extend(view, u, In(y, values)).value
      <==> Extends(u, x) && x.Keys == u.Keys + SimpleVars(In(y, values)) && Satisfies(view, x, In(y, values))
  {
    SameEnv(u, x);
    assert u.Keys + SimpleVars(In(y, values)) == u.Keys;
  }

  lemma ArithRaises(view: View, u: Env, z: string, e: Expr)
    requires SafeAtom(Arith(z, e), u.Keys)
    ensures Extend(view, u, Arith(z, e)).Failure? <==> RaisesOn(view, u, Arith(z, e))
    ensures Extend(view, u, Arith(z, e)).Success? ==> Compute(u, e).Result?
  {
    DenotesOperand(u, e.x);
    DenotesOperand(u, Var(z));
    match e
    case Add(_, y) => DenotesOperand(u, y);
    case Sub(_, y) => DenotesOperand(u, y);
    case AddC(_, c) => ConstantOperand(u, c);
    case MulC(_, c) => ConstantOperand(u, c);
    case Neg(_) =>
  }

  lemma ArithExact(view: View, u: Env, z: string, e: Expr, x: Env)
    requires SafeAtom(Arith(z, e), u.Keys) && Extend(view, u, Arith(z, e)).Success?
    ensures x in Extend(view, u, Arith(z, e)).value
      <==> Extends(u, x) && x.Keys == u.Keys + SimpleVars(Arith(z, e)) && Satisfies(view, x, Arith(z, e))
           && BindsInteger(Arith(z, e), u.Keys, x)
  {
    ArithRaises(view, u, z, e);
    var n := Compute(u, e).n;
    ComputedIs(u, e);
    ComputedIs(x, e);
    DenotesOperand(x, Var(z));
    if Extends(u, x) {
      SameInputs(u, x, e);
    }
    if z in u {
      SameEnv(u, x);
      assert u.Keys + SimpleVars(Arith(z, e)) == u.Keys;
    } else {
      BoundOne(u, z, Num(n), x);
      assert u.Keys + SimpleVars(Arith(z, e)) == u.Keys + {z};
    }
  }

  lemma SameInputs(u: Env, x: Env, e: Expr)
    requires Extends(u, x) && Inputs(e) <= u.Keys
    ensures Compute(x, e) == Compute(u, e)
  {
  }

  /** A step raises exactly where the atom does. */
  lemma StepRaises(view: View, u: Env, a: Simple)
    requires SafeAtom(a, u.Keys)
    ensures Extend(view, u, a).Failure? <==> RaisesOn(view, u, a)
  {
    match a
    case Cmp(op, l, r) => CmpExact(view, u, op, l, r, u);
    case Arith(z, e) => ArithRaises(view, u, z, e);
    case _ =>
  }

  /** A step yields exactly the extensions that bind the atom's variables and satisfy it. */
  lemma StepExact(view: View, u: Env, a: Simple, x: Env)
    requires SafeAtom(a, u.Keys) && Extend(view, u, a).Success?
    ensures x in Extend(view, u, a).value
      <==> Extends(u, x) && x.Keys == u.Keys + SimpleVars(a) && Satisfies(view, x, a) && BindsInteger(a, u.Keys, x)
  {
    match a
    case Pred(pred, terms) => PredExact(view, u, pred, terms, x);
    case Eq(l, r) => EqExact(view, u, l, r, x);
    case Ne(l, r) => NeExact(view, u, l, r, x);
    case Cmp(op, l, r) => CmpExact(view, u, op, l, r, x);
    case In(y, values) => InExact(view, u, y, values, x);
    case Arith(z, e) => ArithExact(view, u, z, e, x);
  }

  // ---------- only the atom's own variables matter ----------

  lemma DenotesLocal(u: Env, x: Env, t: Term)
    requires Extends(u, x) && TermVars(t) <= u.Keys
    ensures forall v :: Denotes(u, t, v) <==> Denotes(x, t, v)
  {
  }

  lemma FitsLocal(u: Env, x: Env, terms: seq<Term>, row: Row)
    requires Extends(u, x) && TermsVars(terms) <= u.Keys
    ensures FitsRow(u, terms, row) <==> FitsRow(x, terms, row)
  {
    forall i | 0 <= i < |terms|
      ensures forall v :: Denotes(u, terms[i], v) <==> Denotes(x, terms[i], v)
    {
      assert forall y :: y in TermVars(terms[i]) ==> y in TermsVars(terms);
      DenotesLocal(u, x, terms[i]);
    }
  }

  lemma SatisfiesLocal(view: View, u: Env, x: Env, a: Simple)
    requires Extends(u, x) && SimpleVars(a) <= u.Keys
    ensures Satisfies(view, u, a) <==> Satisfies(view, x, a)
  {
    match a
    case Pred(pred, terms) =>
      forall row
        ensures FitsRow(u, terms, row) <==> FitsRow(x, terms, row)
      {
        FitsLocal(u, x, terms, row);
      }
    case Eq(l, r) => TwoLocal(u, x, l, r);
    case Ne(l, r) => TwoLocal(u, x, l, r);
    case Cmp(_, l, r) => TwoLocal(u, x, l, r);
    case In(_, _) =>
    case Arith(z, e) =>
      ComputedIs(u, e);
      ComputedIs(x, e);
      SameInputs(u, x, e);
      DenotesLocal(u, x, Var(z));
  }

  lemma TwoLocal(u: Env, x: Env, l: Term, r: Term)
    requires Extends(u, x) && TermVars(l) + TermVars(r) <= u.Keys
    ensures forall v :: (Denotes(u, l, v) <==> Denotes(x, l, v)) && (Denotes(u, r, v) <==> Denotes(x, r, v))
    ensures forall n :: (DenotesInt(u, l, n) <==> DenotesInt(x, l, n)) && (DenotesInt(u, r, n) <==> DenotesInt(x, r, n))
  {
    DenotesLocal(u, x, l);
    DenotesLocal(u, x, r);
  }
}
