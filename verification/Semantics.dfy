/**
 What the atoms of a body mean, said without the evaluator: when a complete binding satisfies an atom,
 and when an atom raises on one.
 */
module Semantics {
  import opened Wrappers
  import opened WhereEval

  // ---------- terms ----------

  // A constant denotes itself, a variable what the binding gives it.
  ghost predicate Denotes(e: Env, t: Term, v: Value) {
    if t.Const? then v == t.value else t.name in e && e[t.name] == v
  }

  // The term denotes an integer or the decimal text of one.
  ghost predicate DenotesInt(e: Env, t: Term, n: int) {
    exists v :: Denotes(e, t, v) && Coerce(v) == Some(n)
  }

  ghost predicate ComputesInt(e: Env, x: Expr, n: int) {
    match x
    case Add(a, b) => exists i, j :: DenotesInt(e, a, i) && DenotesInt(e, b, j) && n == i + j
    case Sub(a, b) => exists i, j :: DenotesInt(e, a, i) && DenotesInt(e, b, j) && n == i - j
    case Neg(a) => exists i :: DenotesInt(e, a, i) && n == 0 - i
    case AddC(a, c) => exists i, j :: DenotesInt(e, a, i) && Coerce(c) == Some(j) && n == i + j
    case MulC(a, c) => exists i, j :: DenotesInt(e, a, i) && Coerce(c) == Some(j) && n == i * j
  }

  // ---------- atoms ----------

  ghost predicate FitsRow(e: Env, terms: seq<Term>, row: Row) {
    |row| == |terms| && forall i :: 0 <= i < |terms| ==> Denotes(e, terms[i], row[i])
  }

  ghost predicate InOrder(op: CmpOp, m: int, n: int) {
    && (op.Gt? ==> m > n)
    && (op.Ge? ==> m >= n)
    && (op.Lt? ==> n > m)
    && (op.Le? ==> n >= m)
  }

  /** The binding makes the atom true in the view. */
  ghost predicate Satisfies(view: View, e: Env, a: Simple) {
    match a
    case Pred(pred, terms) => pred in view && exists row :: row in view[pred] && FitsRow(e, terms, row)
    case Eq(l, r) => exists v :: Denotes(e, l, v) && Denotes(e, r, v)
    case Ne(l, r) => exists v, w :: Denotes(e, l, v) && Denotes(e, r, w) && v != w
    case Cmp(op, l, r) => exists m, n :: DenotesInt(e, l, m) && DenotesInt(e, r, n) && InOrder(op, m, n)
    case In(x, values) => x in e && exists i :: 0 <= i < |values| && values[i] == e[x]
    case Arith(z, x) => exists n :: ComputesInt(e, x, n) && DenotesInt(e, Var(z), n)
  }

  // ---------- variables ----------

  ghost predicate ReadBy(x: Expr, v: string) {
    x.x == Var(v) || (x.Add? && x.y == Var(v)) || (x.Sub? && x.y == Var(v))
  }

  ghost predicate Mentions(a: Simple, v: string) {
    match a
    case Pred(_, terms) => exists i :: 0 <= i < |terms| && terms[i] == Var(v)
    case Eq(l, r) => l == Var(v) || r == Var(v)
    case Ne(l, r) => l == Var(v) || r == Var(v)
    case Cmp(_, l, r) => l == Var(v) || r == Var(v)
    case In(x, _) => x == v
    case Arith(z, x) => z == v || ReadBy(x, v)
  }

  // What has to be bound before the atom.
  ghost predicate NeedsBound(a: Simple, v: string) {
    ((a.Ne? || a.Cmp? || a.In?) && Mentions(a, v)) || (a.Arith? && ReadBy(a.expr, v))
  }

  ghost predicate WellFormed(a: Simple) {
    && (a.Pred? ==> |a.terms| > 0)
    && (a.Cmp? ==> a.lhs.Var? || a.rhs.Var?)
    && (a.In? ==> |a.values| > 0)
    && (a.Arith? && a.expr.AddC? ==> Coerce(a.expr.c).Some?)
    && (a.Arith? && a.expr.MulC? ==> Coerce(a.expr.c).Some?)
  }

  /** The validator's condition: well formed, what it reads is bound, and one side of an equation is. */
  ghost predicate Admitted(a: Simple, bound: set<string>) {
    && WellFormed(a)
    && (forall v :: NeedsBound(a, v) ==> v in bound)
    && (a.Eq? ==> (forall v :: a.lhs == Var(v) ==> v in bound) || (forall v :: a.rhs == Var(v) ==> v in bound))
  }

  lemma VarsMean(a: Simple, v: string)
    ensures v in SimpleVars(a) <==> Mentions(a, v)
  {
    if a.Pred? && v in SimpleVars(a) {
      var t :| t in a.terms && v in TermVars(t);
      assert t == Var(v);
    }
    if a.Pred? && Mentions(a, v) {
      assert Var(v) in a.terms && v in TermVars(Var(v));
    }
  }

  lemma SafeMeansAdmitted(a: Simple, bound: set<string>)
    ensures SafeAtom(a, bound) <==> Admitted(a, bound)
  {
    forall v
      ensures v in SimpleVars(a) <==> Mentions(a, v)
      ensures a.Arith? ==> (v in Inputs(a.expr) <==> ReadBy(a.expr, v))
    {
      VarsMean(a, v);
    }
    match a
    case Eq(l, r) =>
      assert Known(l, bound) <==> forall v :: l == Var(v) ==> v in bound;
      assert Known(r, bound) <==> forall v :: r == Var(v) ==> v in bound;
    case Ne(l, r) =>
      assert Known(l, bound) && Known(r, bound) <==> SimpleVars(a) <= bound;
    case Cmp(_, l, r) =>
      assert Known(l, bound) && Known(r, bound) <==> SimpleVars(a) <= bound;
    case _ =>
  }

  // ---------- decimal text ----------

  function DigitOf(d: nat): char
    requires d < 10
  {
    "0123456789"[d]
  }

  function DecimalNat(n: nat): string {
    if n < 10 then [DigitOf(n)] else DecimalNat(n / 10) + [DigitOf(n % 10)]
  }

  /** The text of an integer: an optional minus sign and its decimal digits. */
  function Decimal(n: int): string {
    if n < 0 then "-" + DecimalNat(0 - n) else DecimalNat(n)
  }

  lemma {:induction false} DecimalNatReads(n: nat)
    ensures DecimalNat(n) != [] && forall c :: c in DecimalNat(n) ==> IsDigit(c)
    ensures DigitsValue(DecimalNat(n)) == n
  {
    var s := DecimalNat(n);
    if n < 10 {
      assert s[..0] == [];
      assert DigitsValue(s[..0]) == 0;
    } else {
      DecimalNatReads(n / 10);
      assert s[..|s| - 1] == DecimalNat(n / 10);
    }
  }

  lemma UnsignedReads(digits: string)
    requires digits != [] && forall c :: c in digits ==> IsDigit(c)
    ensures Coerce(Text(digits)) == Some(DigitsValue(digits))
  {
  }

  /** Decimal text stands for its integer. */
  lemma DecimalReads(n: int)
    ensures Coerce(Text(Decimal(n))) == Some(n)
  {
    var digits := DecimalNat(if n < 0 then 0 - n else n);
    DecimalNatReads(if n < 0 then 0 - n else n);
    SignedReads(digits);
    UnsignedReads(digits);
  }

  lemma SignedReads(digits: string)
    requires digits != [] && forall c :: c in digits ==> IsDigit(c)
    ensures Coerce(Text("-" + digits)) == Some(0 - DigitsValue(digits))
  {
    var s := "-" + digits;
    assert s[1..] == digits;
    assert s[0] in s && !IsDigit(s[0]);
  }

  ghost predicate IsSigned(s: string, digits: string) {
    digits != [] && (forall c :: c in digits ==> '0' <= c <= '9') && (s == digits || s == "-" + digits)
  }

  /** Only digits with at most a minus sign in front stand for an integer; leading zeros do not matter. */
  lemma {:induction false} IntegerTexts(s: string)
    ensures Coerce(Text(s)).Some? <==> exists digits :: IsSigned(s, digits)
    ensures Coerce(Text(s)).Some? && s[0] != '-' ==> Coerce(Text("0" + s)) == Coerce(Text(s))
  {
    if s != [] && s[0] == '-' {
      assert s == "-" + s[1..];
      assert s[0] in s && !IsDigit(s[0]);
    }
    if Coerce(Text(s)).Some? {
      if s[0] == '-' {
        assert IsSigned(s, s[1..]);
      } else {
        assert IsSigned(s, s);
        LeadingZero(s);
      }
    }
    if digits :| IsSigned(s, digits) && s == "-" + digits {
      assert s[1..] == digits;
    }
  }

  lemma {:induction false} LeadingZero(s: string)
    requires forall c :: c in s ==> IsDigit(c)
    ensures forall c :: c in "0" + s ==> IsDigit(c)
    ensures DigitsValue("0" + s) == DigitsValue(s)
  {
    var t := "0" + s;
    if s == [] {
      assert t[..0] == [];
      assert DigitsValue(t[..0]) == 0;
    } else {
      assert t[..|t| - 1] == "0" + s[..|s| - 1];
      LeadingZero(s[..|s| - 1]);
    }
  }
}
