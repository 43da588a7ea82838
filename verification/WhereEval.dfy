/**
 The native nested-loop evaluator: environments are extended atom by atom over the visible facts,
 and a body is a list of branches of atoms. This is the evaluator with the AST gate on.
 */
module WhereEval {
  import opened Wrappers
  import Order = StringOrder

  // Only strings and integers take part in comparisons and arithmetic; floats and bytes are opaque.
  datatype Value = Num(n: int) | Text(s: string) | Flag(b: bool) | Float(token: int) | Bytes(token: int)

  datatype Term = Var(name: string) | Const(value: Value)

  datatype CmpOp = Gt | Ge | Lt | Le

  datatype Expr = Add(x: Term, y: Term) | Sub(x: Term, y: Term) | Neg(x: Term) | AddC(x: Term, c: Value) | MulC(x: Term, c: Value)

  // Atoms that may also stand inside a `not` body; a `not` body holds no further `not`.
  datatype Simple =
    | Pred(pred: string, terms: seq<Term>)
    | Eq(lhs: Term, rhs: Term)
    | Ne(lhs: Term, rhs: Term)
    | Cmp(op: CmpOp, lhs: Term, rhs: Term)
    | In(variable: string, values: seq<Value>)
    | Arith(output: string, expr: Expr)

  datatype Atom = Positive(atom: Simple) | Not(bodies: seq<seq<Simple>>)

  type Env = map<string, Value>
  type Row = seq<Value>
  type View = map<string, seq<Row>>
  type Envs = Result<seq<Env>, string>

  // ---------- values ----------

  predicate IsDigit(c: char) {
    '0' <= c <= '9'
  }

  function DigitsValue(s: string): nat
    requires forall c :: c in s ==> IsDigit(c)
  {
    if s == [] then 0
    else
      assert IsDigit(s[|s| - 1]);
      10 * DigitsValue(s[..|s| - 1]) + (s[|s| - 1] as int - '0' as int)
  }

  /** Integers stand for themselves; decimal text stands for its integer; nothing else is accepted. */
  function Coerce(v: Value): (r: Option<int>) {
    match v
    case Num(n) => Some(n)
    case Text(s) =>
      if s != [] && (forall c :: c in s ==> IsDigit(c)) then Some(DigitsValue(s))
      else if |s| > 1 && s[0] == '-' && (forall c :: c in s[1..] ==> IsDigit(c)) then Some(0 - DigitsValue(s[1..]))
      else None
    case _ => None
  }

  function Lookup(env: Env, t: Term): Option<Value> {
    match t
    case Const(v) => Some(v)
    case Var(x) => if x in env then Some(env[x]) else None
  }

  function TermVars(t: Term): set<string> {
    match t
    case Const(_) => {}
    case Var(x) => {x}
  }

  function TermsVars(ts: seq<Term>): set<string> {
    set t, x | t in ts && x in TermVars(t) :: x
  }

  function Inputs(e: Expr): set<string> {
    match e
    case Add(x, y) => TermVars(x) + TermVars(y)
    case Sub(x, y) => TermVars(x) + TermVars(y)
    case Neg(x) => TermVars(x)
    case AddC(x, _) => TermVars(x)
    case MulC(x, _) => TermVars(x)
  }

  function SimpleVars(a: Simple): set<string> {
    match a
    case Pred(_, terms) => TermsVars(terms)
    case Eq(l, r) => TermVars(l) + TermVars(r)
    case Ne(l, r) => TermVars(l) + TermVars(r)
    case Cmp(_, l, r) => TermVars(l) + TermVars(r)
    case In(x, _) => {x}
    case Arith(z, e) => {z} + Inputs(e)
  }

  function BodyVars(body: seq<Simple>): set<string> {
    set a, x | a in body && x in SimpleVars(a) :: x
  }

  function NotVars(bodies: seq<seq<Simple>>): set<string> {
    set b, x | b in bodies && x in BodyVars(b) :: x
  }

  // The variables of a branch, as diagnosis counts them: those inside `not` bodies are not visible.
  function BranchVars(branch: seq<Atom>): set<string> {
    set a, x | a in branch && a.Positive? && x in SimpleVars(a.atom) :: x
  }

  // ---------- predicate atoms ----------

  function MatchRow(env: Env, terms: seq<Term>, row: Row): Option<Env>
    requires |terms| == |row|
    decreases |terms|
  {
    if terms == [] then Some(env)
    else
      match terms[0]
      case Const(v) => if v == row[0] then MatchRow(env, terms[1..], row[1..]) else None
      case Var(x) =>
        if x in env then (if env[x] == row[0] then MatchRow(env, terms[1..], row[1..]) else None)
        else MatchRow(env[x := row[0]], terms[1..], row[1..])
  }

  function MatchRows(env: Env, terms: seq<Term>, rows: seq<Row>): seq<Env>
    requires forall r :: r in rows ==> |r| == |terms|
  {
    if rows == [] then []
    else
      var first := MatchRow(env, terms, rows[0]);
      (if first.Some? then [first.value] else []) + MatchRows(env, terms, rows[1..])
  }

  // The rows the lookup index yields: equal to the atom at every constant or bound position.
  predicate Agrees(env: Env, terms: seq<Term>, row: Row)
    requires |terms| == |row|
  {
    forall i :: 0 <= i < |terms| ==> Lookup(env, terms[i]).Some? ==> Lookup(env, terms[i]).value == row[i]
  }

  function Candidates(env: Env, terms: seq<Term>, rows: seq<Row>): (r: seq<Row>)
    requires forall r :: r in rows ==> |r| == |terms|
    ensures |r| <= |rows|
    ensures forall x :: x in r ==> x in rows
  {
    if rows == [] then []
    else (if Agrees(env, terms, rows[0]) then [rows[0]] else []) + Candidates(env, terms, rows[1..])
  }

  function ExtendPred(view: View, env: Env, pred: string, terms: seq<Term>): Envs {
    if pred !in view then Failure("UNKNOWN_PREDICATE")
    else if exists row :: row in view[pred] && |row| != |terms| then Failure("ARITY_MISMATCH")
    else Success(MatchRows(env, terms, Candidates(env, terms, view[pred])))
  }

  // ---------- other atoms ----------

  function CmpHolds(op: CmpOp, l: int, r: int): bool {
    match op
    case Gt => l > r
    case Ge => l >= r
    case Lt => l < r
    case Le => l <= r
  }

  datatype Computed = Raises | Unbound | Result(n: int)

  function Operand(env: Env, t: Term): Computed {
    var v := Lookup(env, t);
    if v.None? then Unbound
    else
      var n := Coerce(v.value);
      if n.None? then Raises else Result(n.value)
  }

  function Compute(env: Env, e: Expr): Computed {
    var x := Operand(env, e.x);
    if !x.Result? then x
    else
      match e
      case Neg(_) => Result(-x.n)
      case Add(_, t) => (var y := Operand(env, t); if y.Result? then Result(x.n + y.n) else y)
      case Sub(_, t) => (var y := Operand(env, t); if y.Result? then Result(x.n - y.n) else y)
      case AddC(_, c) => (var y := Operand(env, Const(c)); if y.Result? then Result(x.n + y.n) else y)
      case MulC(_, c) => (var y := Operand(env, Const(c)); if y.Result? then Result(x.n * y.n) else y)
  }

  function KeepIf(env: Env, keep: bool): Envs {
    Success(if keep then [env] else [])
  }

  function Extend(view: View, env: Env, a: Simple): Envs {
    match a
    case Pred(pred, terms) => ExtendPred(view, env, pred, terms)
    case Eq(lhs, rhs) =>
      var l, r := Lookup(env, lhs), Lookup(env, rhs);
      if l.Some? && r.Some? then KeepIf(env, l.value == r.value)
      else if l.Some? && rhs.Var? then Success([env[rhs.name := l.value]])
      else if r.Some? && lhs.Var? then Success([env[lhs.name := r.value]])
      else Success([])
    case Ne(lhs, rhs) =>
      var l, r := Lookup(env, lhs), Lookup(env, rhs);
      KeepIf(env, l.Some? && r.Some? && l.value != r.value)
    case Cmp(op, lhs, rhs) =>
      var l, r := Lookup(env, lhs), Lookup(env, rhs);
      if l.None? || r.None? then Success([])
      else
        var m, n := Coerce(l.value), Coerce(r.value);
        if m.None? || n.None? then Failure("NOT_COMPARABLE") else KeepIf(env, CmpHolds(op, m.value, n.value))
    case In(x, values) =>
      KeepIf(env, x in env && env[x] in values)
    case Arith(z, e) =>
      match Compute(env, e)
      case Raises => Failure("NOT_AN_INTEGER")
      case Unbound => Success([])
      case Result(n) =>
        if z !in env then Success([env[z := Num(n)]])
        else
          var m := Coerce(env[z]);
          if m.None? then Failure("NOT_AN_INTEGER") else KeepIf(env, m.value == n)
  }

  function ExtendAll(view: View, envs: seq<Env>, a: Simple): Envs {
    if envs == [] then Success([])
    else
      var first :- Extend(view, envs[0], a);
      var rest :- ExtendAll(view, envs[1..], a);
      Success(first + rest)
  }

  /** A whole body of simple atoms; evaluation stops at the first empty frontier. */
  function EvalSimple(view: View, envs: seq<Env>, body: seq<Simple>): Envs
    decreases |body|
  {
    if envs == [] || body == [] then Success(envs)
    else
      var next :- ExtendAll(view, envs, body[0]);
      EvalSimple(view, next, body[1..])
  }

  // ---------- negation ----------

  // With several alternatives, each must mention every variable the outer environment shares.
  predicate Correlated(env: Env, bodies: seq<seq<Simple>>) {
    |bodies| > 1 ==>
      forall x :: x in NotVars(bodies) && x in env ==> forall b :: b in bodies ==> x in BodyVars(b)
  }

  function SomeBodyHolds(view: View, env: Env, bodies: seq<seq<Simple>>): Result<bool, string> {
    if bodies == [] then Success(false)
    else
      var found :- EvalSimple(view, [env], bodies[0]);
      if found != [] then Success(true) else SomeBodyHolds(view, env, bodies[1..])
  }

  function ExtendAtom(view: View, env: Env, a: Atom): Envs {
    match a
    case Positive(s) => Extend(view, env, s)
    case Not(bodies) =>
      if !Correlated(env, bodies) then Failure("UNCORRELATED_ALTERNATIVE")
      else
        var holds :- SomeBodyHolds(view, env, bodies);
        KeepIf(env, !holds)
  }

  function ExtendFrontier(view: View, envs: seq<Env>, a: Atom): Envs {
    if envs == [] then Success([])
    else
      var first :- ExtendAtom(view, envs[0], a);
      var rest :- ExtendFrontier(view, envs[1..], a);
      Success(first + rest)
  }

  function EvalBranch(view: View, envs: seq<Env>, branch: seq<Atom>): Envs
    decreases |branch|
  {
    if envs == [] || branch == [] then Success(envs)
    else
      var next :- ExtendFrontier(view, envs, branch[0]);
      EvalBranch(view, next, branch[1..])
  }

  // ---------- the shape the validator admits ----------

  predicate Known(t: Term, bound: set<string>) {
    TermVars(t) <= bound
  }

  // An atom whose inputs are bound by earlier atoms of the branch.
  predicate SafeAtom(a: Simple, bound: set<string>) {
    match a
    case Pred(_, terms) => terms != []
    case Eq(l, r) => Known(l, bound) || Known(r, bound)
    case Ne(l, r) => Known(l, bound) && Known(r, bound)
    case Cmp(_, l, r) => Known(l, bound) && Known(r, bound) && (l.Var? || r.Var?)
    case In(x, values) => x in bound && values != []
    case Arith(_, e) => Inputs(e) <= bound && (e.AddC? || e.MulC? ==> Coerce(e.c).Some?)
  }

  // What an atom reads; the output of an arithmetic atom is written, not read.
  function Reads(a: Simple): set<string> {
    if a.Arith? then Inputs(a.expr) else SimpleVars(a)
  }

  predicate SafeBody(body: seq<Simple>, bound: set<string>) {
    body != [] ==> SafeAtom(body[0], bound) && SafeBody(body[1..], bound + SimpleVars(body[0]))
  }

  predicate SafeBranch(branch: seq<Atom>, bound: set<string>) {
    if branch == [] then true
    else
      match branch[0]
      case Positive(a) => SafeAtom(a, bound) && SafeBranch(branch[1..], bound + SimpleVars(a))
      case Not(bodies) =>
        && bodies != []
        && (exists b :: b in bodies && exists a :: a in b && Reads(a) * bound != {})
        && (forall b :: b in bodies ==> b != [] && SafeBody(b, bound))
        && SafeBranch(branch[1..], bound)
  }

  // ---------- whole bodies ----------

  function Dedupe(envs: seq<Env>): seq<Env> {
    if envs == [] then []
    else
      var before, last := Dedupe(envs[..|envs| - 1]), envs[|envs| - 1];
      if last in before then before else before + [last]
  }

  function EvalBranches(view: View, where: seq<seq<Atom>>): Envs {
    if where == [] then Success([])
    else
      var before :- EvalBranches(view, where[..|where| - 1]);
      var last :- EvalBranch(view, [map[]], where[|where| - 1]);
      Success(before + last)
  }

  // Values that sorting can order: numbers among themselves, strings, and byte strings.
  predicate Orderable(v: Value, w: Value) {
    (v.Text? && w.Text?) || (v.Bytes? && w.Bytes?) || (!v.Text? && !v.Bytes? && !w.Text? && !w.Bytes?)
  }

  // Bindings are ordered by their items in the order of the names. Two of them clash when the first
  // items that differ have the same name and values that cannot be ordered.
  predicate Clash(a: Env, b: Env) {
    exists x :: x in a && x in b && a[x] != b[x] && !Orderable(a[x], b[x])
                && forall y :: y in a.Keys + b.Keys && Order.Less(y, x) ==> y in a && y in b && a[y] == b[y]
  }

  // Sorting distinct bindings raises exactly if two of them clash.
  predicate Sortable(envs: seq<Env>) {
    forall a, b :: a in envs && b in envs ==> !Clash(a, b)
  }

  /**
   All distinct bindings of a body, or an error: of a body the validator does not admit, of an atom,
   or of sorting the bindings. The bindings are left in the order in which they are found.
   */
  function EvaluateWhere(view: View, where: seq<seq<Atom>>): Envs {
    if where == [] || exists b :: b in where && (b == [] || !SafeBranch(b, {})) then Failure("WHERE_INVALID")
    else
      var bindings :- EvalBranches(view, where);
      if Sortable(Dedupe(bindings)) then Success(Dedupe(bindings)) else Failure("TYPE_ERROR")
  }
}
