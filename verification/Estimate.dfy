/**
 The work estimate that gates the verification of a bundle: saturating arithmetic over the parsed
 body, and the unbounded arithmetic that it refines.
 */
module Estimate {
  import opened Wrappers

  const MAX_WORK: nat := 100_000

  datatype Term = Plain | Aggregate(filter: Conjunction)

  datatype Atom =
    | PredAtom(pred: string, terms: seq<Term>)
    | NotAtom(body: Body)
    | InAtom(valueCount: nat)
    | CmpAtom(sides: seq<Term>)
    | BuiltinAtom(args: seq<Term>)

  datatype Conjunction = Conjunction(atoms: seq<Atom>)

  datatype Body = And(conjunction: Conjunction) | Or(branches: seq<Conjunction>)

  type Counts = map<string, int>

  function Max(a: int, b: int): int {
    if a < b then b else a
  }

  function Min(a: int, b: int): int {
    if a < b then a else b
  }

  // ---------- saturating arithmetic ----------

  function Saturated(n: nat): nat {
    Min(MAX_WORK + 1, n)
  }

  function SaturatingAdd(left: nat, right: nat): nat {
    Min(MAX_WORK + 1, left + right)
  }

  function SaturatingMultiply(left: nat, right: nat): (r: nat)
    ensures r == Saturated(left * right)
  {
    if left == 0 || right == 0 then 0
    else
      DivisionDecides(left, right);
      if left > MAX_WORK / right then MAX_WORK + 1 else Min(MAX_WORK + 1, left * right)
  }

  lemma DivisionDecides(left: nat, right: nat)
    requires right > 0
    ensures left > MAX_WORK / right <==> left * right > MAX_WORK
  {
    var q := MAX_WORK / right;
    assert q * right <= MAX_WORK < (q + 1) * right;
    if left > q {
      MultiplyMonotone(q + 1, left, right);
    } else {
      MultiplyMonotone(left, q, right);
    }
  }

  lemma MultiplyMonotone(a: nat, b: nat, c: nat)
    requires a <= b
    ensures a * c <= b * c
  {
  }

  /** Saturating an operand early does not change a saturated product. */
  lemma SaturateProduct(a: nat, b: nat)
    ensures Saturated(Saturated(a) * b) == Saturated(a * b)
    ensures Saturated(a * Saturated(b)) == Saturated(a * b)
  {
    if a > MAX_WORK && b > 0 {
      MultiplyMonotone(MAX_WORK + 1, a, b);
      MultiplyMonotone(1, b, MAX_WORK + 1);
    }
    if b > MAX_WORK && a > 0 {
      MultiplyMonotone(MAX_WORK + 1, b, a);
      MultiplyMonotone(1, a, MAX_WORK + 1);
    }
  }

  // ---------- unbounded arithmetic ----------

  function Count(counts: Counts, pred: string): int {
    if pred in counts then counts[pred] else 0
  }

  function TermFactor(t: Term, counts: Counts): (r: nat)
    ensures r >= 1
    decreases t
  {
    match t
    case Plain => 1
    case Aggregate(filter) => Max(1, AtomsBound(filter.atoms, counts))
  }

  function TermsFactor(terms: seq<Term>, counts: Counts): (r: nat)
    ensures r >= 1
    decreases terms
  {
    if terms == [] then 1
    else TermsFactor(terms[..|terms| - 1], counts) * TermFactor(terms[|terms| - 1], counts)
  }

  function AtomFactor(a: Atom, counts: Counts): (r: nat)
    ensures r >= 1
    decreases a
  {
    match a
    case PredAtom(pred, terms) => Max(1, Count(counts, pred)) * TermsFactor(terms, counts)
    case NotAtom(body) => Max(1, BodyBound(body, counts))
    case InAtom(valueCount) => Max(1, valueCount)
    case CmpAtom(sides) => TermsFactor(sides, counts)
    case BuiltinAtom(args) => TermsFactor(args, counts)
  }

  /** How many bindings a conjunction can yield. */
  function AtomsBound(atoms: seq<Atom>, counts: Counts): nat
    decreases atoms
  {
    if atoms == [] then 1
    else AtomsBound(atoms[..|atoms| - 1], counts) * AtomFactor(atoms[|atoms| - 1], counts)
  }

  function BranchesBound(branches: seq<Conjunction>, counts: Counts): nat
    decreases branches
  {
    if branches == [] then 0
    else BranchesBound(branches[..|branches| - 1], counts) + AtomsBound(branches[|branches| - 1].atoms, counts)
  }

  function BodyBound(body: Body, counts: Counts): nat
    decreases body
  {
    match body
    case And(c) => AtomsBound(c.atoms, counts)
    case Or(branches) => BranchesBound(branches, counts)
  }

  function TermConditions(t: Term): nat
    decreases t
  {
    match t
    case Plain => 0
    case Aggregate(filter) => AtomsConditions(filter.atoms)
  }

  function TermsConditions(terms: seq<Term>): nat
    decreases terms
  {
    if terms == [] then 0 else TermsConditions(terms[..|terms| - 1]) + TermConditions(terms[|terms| - 1])
  }

  /** Every atom is one condition, and so is each atom below it in a `not` body or an aggregate. */
  function AtomConditions(a: Atom): nat
    decreases a
  {
    match a
    case NotAtom(body) => 1 + Conditions(body)
    case PredAtom(_, terms) => 1 + TermsConditions(terms)
    case CmpAtom(sides) => 1 + TermsConditions(sides)
    case BuiltinAtom(args) => 1 + TermsConditions(args)
    case InAtom(_) => 1
  }

  function AtomsConditions(atoms: seq<Atom>): nat
    decreases atoms
  {
    if atoms == [] then 0 else AtomsConditions(atoms[..|atoms| - 1]) + AtomConditions(atoms[|atoms| - 1])
  }

  function BranchesConditions(branches: seq<Conjunction>): nat
    decreases branches
  {
    if branches == [] then 0
    else BranchesConditions(branches[..|branches| - 1]) + AtomsConditions(branches[|branches| - 1].atoms)
  }

  function Conditions(body: Body): nat
    decreases body
  {
    match body
    case And(c) => AtomsConditions(c.atoms)
    case Or(branches) => BranchesConditions(branches)
  }

  ghost function FactTotal(counts: Counts): nat
    decreases |counts|
  {
    if counts == map[] then 0
    else
      var pred :| pred in counts;
      Max(0, counts[pred]) + FactTotal(counts - {pred})
  }

  /** The total does not depend on the order in which predicates are taken. */
  lemma {:induction false} FactTotalTakes(counts: Counts, pred: string)
    requires pred in counts
    ensures FactTotal(counts) == Max(0, counts[pred]) + FactTotal(counts - {pred})
    decreases |counts|
  {
    var first :| first in counts && FactTotal(counts) == Max(0, counts[first]) + FactTotal(counts - {first});
    if first != pred {
      FactTotalTakes(counts - {first}, pred);
      FactTotalTakes(counts - {pred}, first);
      assert counts - {first} - {pred} == counts - {pred} - {first};
    }
  }

  ghost function ExactWork(body: Body, counts: Counts, rows: nat): nat {
    (BodyBound(body, counts) + rows) * (3 * (Max(1, Conditions(body)) * Max(1, FactTotal(counts))))
  }

  // ---------- the saturating computation ----------

  method EstimateExpression(body: Body, counts: Counts) returns (total: nat)
    ensures total == Saturated(BodyBound(body, counts))
    decreases body
  {
    match body
    case And(c) =>
      total := EstimateAtoms(c.atoms, counts);
    case Or(branches) =>
      total := 0;
      for i := 0 to |branches|
        invariant total == Saturated(BranchesBound(branches[..i], counts))
      {
        assert branches[..i + 1][..i] == branches[..i];
        var branch := EstimateAtoms(branches[i].atoms, counts);
        total := SaturatingAdd(total, branch);
      }
      assert branches[..|branches|] == branches;
  }

  method EstimateAtoms(atoms: seq<Atom>, counts: Counts) returns (work: nat)
    ensures work == Saturated(AtomsBound(atoms, counts))
    decreases atoms
  {
    work := 1;
    for i := 0 to |atoms|
      invariant work == Saturated(AtomsBound(atoms[..i], counts))
    {
      assert atoms[..i + 1][..i] == atoms[..i];
      var factor := EstimateAtom(atoms[i], counts);
      SaturateProduct(AtomsBound(atoms[..i], counts), factor);
      SaturateProduct(AtomsBound(atoms[..i], counts), AtomFactor(atoms[i], counts));
      work := SaturatingMultiply(work, factor);
    }
    assert atoms[..|atoms|] == atoms;
  }

  // The factor of a predicate atom may exceed the limit: only products of factors are saturated.
  method EstimateAtom(a: Atom, counts: Counts) returns (factor: nat)
    ensures Saturated(factor) == Saturated(AtomFactor(a, counts))
    decreases a
  {
    match a
    case PredAtom(pred, terms) =>
      var inner := EstimateTerms(terms, counts);
      SaturateProduct(Max(1, Count(counts, pred)), TermsFactor(terms, counts));
      factor := Max(1, Count(counts, pred)) * inner;
    case NotAtom(body) =>
      var inner := EstimateExpression(body, counts);
      factor := Max(1, inner);
    case InAtom(valueCount) =>
      factor := Max(1, valueCount);
    case CmpAtom(sides) =>
      factor := EstimateTerms(sides, counts);
    case BuiltinAtom(args) =>
      factor := EstimateTerms(args, counts);
  }

  method EstimateTerms(terms: seq<Term>, counts: Counts) returns (factor: nat)
    ensures factor == Saturated(TermsFactor(terms, counts))
    decreases terms
  {
    factor := 1;
    for i := 0 to |terms|
      invariant factor == Saturated(TermsFactor(terms[..i], counts))
    {
      assert terms[..i + 1][..i] == terms[..i];
      if terms[i].Aggregate? {
        var inner := EstimateFilter(terms[i], counts);
        SaturateProduct(TermsFactor(terms[..i], counts), Max(1, inner));
        SaturateProduct(TermsFactor(terms[..i], counts), TermFactor(terms[i], counts));
        factor := SaturatingMultiply(factor, Max(1, inner));
      }
    }
    assert terms[..|terms|] == terms;
  }

  method EstimateFilter(t: Term, counts: Counts) returns (work: nat)
    requires t.Aggregate?
    ensures work == Saturated(AtomsBound(t.filter.atoms, counts))
    decreases t
  {
    work := EstimateAtoms(t.filter.atoms, counts);
  }

  method TotalFacts(counts: Counts) returns (total: nat)
    ensures total == FactTotal(counts)
  {
    total := 0;
    var remaining := counts;
    while remaining != map[]
      invariant total + FactTotal(remaining) == FactTotal(counts)
      decreases |remaining|
    {
      var pred :| pred in remaining;
      FactTotalTakes(remaining, pred);
      total := total + Max(0, remaining[pred]);
      remaining := remaining - {pred};
    }
  }

  /**
   The saturating estimate is the unbounded estimate, cut off just above the limit; a negative
   number of captured rows is refused.
   */
  method EstimateVerificationWork(body: Body, counts: Counts, rows: int) returns (r: Result<nat, string>)
    ensures rows < 0 <==> r.Failure?
    ensures rows >= 0 ==> r == Success(Saturated(ExactWork(body, counts, rows)))
  {
    if rows < 0 {
      return Failure("INVALID_ROW_COUNT");
    }
    var bindings := EstimateExpression(body, counts);
    var total := TotalFacts(counts);
    var scans := SaturatingMultiply(3, SaturatingMultiply(Max(1, Conditions(body)), Max(1, total)));
    var rebuilds := SaturatingAdd(bindings, rows);
    SaturateProduct(3, Max(1, Conditions(body)) * Max(1, total));
    SaturateProduct(BodyBound(body, counts) + rows, scans);
    SaturateProduct(BodyBound(body, counts) + rows, 3 * (Max(1, Conditions(body)) * Max(1, total)));
    r := Success(SaturatingMultiply(rebuilds, scans));
  }

  // ---------- monotonicity ----------

  ghost predicate Below(fewer: Counts, more: Counts) {
    forall p :: p in fewer ==> p in more && fewer[p] <= more[p]
  }

  lemma ProductMonotone(a: nat, b: nat, c: nat, d: nat)
    requires a <= c && b <= d
    ensures a * b <= c * d
  {
    MultiplyMonotone(a, c, b);
    MultiplyMonotone(b, d, c);
  }

  lemma {:induction false} TermMonotone(t: Term, fewer: Counts, more: Counts)
    requires Below(fewer, more)
    ensures TermFactor(t, fewer) <= TermFactor(t, more)
    decreases t
  {
    if t.Aggregate? {
      AtomsMonotone(t.filter.atoms, fewer, more);
    }
  }

  lemma {:induction false} TermsMonotone(terms: seq<Term>, fewer: Counts, more: Counts)
    requires Below(fewer, more)
    ensures TermsFactor(terms, fewer) <= TermsFactor(terms, more)
    decreases terms
  {
    if terms != [] {
      var before, last := terms[..|terms| - 1], terms[|terms| - 1];
      TermsMonotone(before, fewer, more);
      TermMonotone(last, fewer, more);
      ProductMonotone(TermsFactor(before, fewer), TermFactor(last, fewer), TermsFactor(before, more), TermFactor(last, more));
    }
  }

  lemma {:induction false} AtomMonotone(a: Atom, fewer: Counts, more: Counts)
    requires Below(fewer, more)
    ensures AtomFactor(a, fewer) <= AtomFactor(a, more)
    decreases a
  {
    match a
    case PredAtom(pred, terms) =>
      TermsMonotone(terms, fewer, more);
      ProductMonotone(Max(1, Count(fewer, pred)), TermsFactor(terms, fewer), Max(1, Count(more, pred)), TermsFactor(terms, more));
    case NotAtom(body) => BodyMonotone(body, fewer, more);
    case InAtom(_) =>
    case CmpAtom(sides) => TermsMonotone(sides, fewer, more);
    case BuiltinAtom(args) => TermsMonotone(args, fewer, more);
  }

  lemma {:induction false} AtomsMonotone(atoms: seq<Atom>, fewer: Counts, more: Counts)
    requires Below(fewer, more)
    ensures AtomsBound(atoms, fewer) <= AtomsBound(atoms, more)
    decreases atoms
  {
    if atoms != [] {
      var before, last := atoms[..|atoms| - 1], atoms[|atoms| - 1];
      AtomsMonotone(before, fewer, more);
      AtomMonotone(last, fewer, more);
      ProductMonotone(AtomsBound(before, fewer), AtomFactor(last, fewer), AtomsBound(before, more), AtomFactor(last, more));
    }
  }

  lemma {:induction false} BranchesMonotone(branches: seq<Conjunction>, fewer: Counts, more: Counts)
    requires Below(fewer, more)
    ensures BranchesBound(branches, fewer) <= BranchesBound(branches, more)
    decreases branches
  {
    if branches != [] {
      BranchesMonotone(branches[..|branches| - 1], fewer, more);
      AtomsMonotone(branches[|branches| - 1].atoms, fewer, more);
    }
  }

  lemma {:induction false} BodyMonotone(body: Body, fewer: Counts, more: Counts)
    requires Below(fewer, more)
    ensures BodyBound(body, fewer) <= BodyBound(body, more)
    decreases body
  {
    match body
    case And(c) => AtomsMonotone(c.atoms, fewer, more);
    case Or(branches) => BranchesMonotone(branches, fewer, more);
  }

  lemma {:induction false} FactTotalMonotone(fewer: Counts, more: Counts)
    requires Below(fewer, more)
    ensures FactTotal(fewer) <= FactTotal(more)
    decreases |fewer|
  {
    if fewer != map[] {
      var pred :| pred in fewer;
      FactTotalTakes(fewer, pred);
      FactTotalTakes(more, pred);
      FactTotalMonotone(fewer - {pred}, more - {pred});
    }
  }

  /** More facts, or more rows, never make the estimate smaller. */
  lemma EstimateMonotone(body: Body, fewer: Counts, more: Counts, fewerRows: nat, moreRows: nat)
    requires Below(fewer, more) && fewerRows <= moreRows
    ensures ExactWork(body, fewer, fewerRows) <= ExactWork(body, more, moreRows)
    ensures Saturated(ExactWork(body, fewer, fewerRows)) <= Saturated(ExactWork(body, more, moreRows))
  {
    BodyMonotone(body, fewer, more);
    FactTotalMonotone(fewer, more);
    var c := Max(1, Conditions(body));
    var f, f' := Max(1, FactTotal(fewer)), Max(1, FactTotal(more));
    ProductMonotone(c, f, c, f');
    ProductMonotone(BodyBound(body, fewer) + fewerRows, 3 * (c * f), BodyBound(body, more) + moreRows, 3 * (c * f'));
  }
}
