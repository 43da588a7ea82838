/** What the estimate counts: the atoms of a body, products along a conjunction, sums over branches. */
module EstimateMeaning {
  import opened Estimate

  // ---------- conditions ----------

  // All atoms of the body, those inside its `not` bodies and aggregates among them.
  ghost function Listed(body: Body): seq<Atom>
    decreases body
  {
    match body
    case And(c) => ListedIn(c.atoms)
    case Or(branches) => ListedInBranches(branches)
  }

  ghost function ListedInBranches(branches: seq<Conjunction>): seq<Atom>
    decreases branches
  {
    if branches == [] then []
    else ListedInBranches(branches[..|branches| - 1]) + ListedIn(branches[|branches| - 1].atoms)
  }

  ghost function ListedIn(atoms: seq<Atom>): seq<Atom>
    decreases atoms
  {
    if atoms == [] then []
    else ListedIn(atoms[..|atoms| - 1]) + [atoms[|atoms| - 1]] + ListedBelow(atoms[|atoms| - 1])
  }

  ghost function ListedBelow(a: Atom): seq<Atom>
    decreases a
  {
    match a
    case NotAtom(body) => Listed(body)
    case PredAtom(_, terms) => ListedInTerms(terms)
    case CmpAtom(sides) => ListedInTerms(sides)
    case BuiltinAtom(args) => ListedInTerms(args)
    case InAtom(_) => []
  }

  ghost function ListedInTerms(terms: seq<Term>): seq<Atom>
    decreases terms
  {
    if terms == [] then [] else ListedInTerms(terms[..|terms| - 1]) + ListedInTerm(terms[|terms| - 1])
  }

  ghost function ListedInTerm(t: Term): seq<Atom>
    decreases t
  {
    match t
    case Plain => []
    case Aggregate(filter) => ListedIn(filter.atoms)
  }

  /** A body has as many conditions as atoms, counting those inside `not` bodies and aggregates. */
  lemma {:induction false} ConditionsCount(body: Body)
    ensures Conditions(body) == |Listed(body)|
    decreases body
  {
    match body
    case And(c) => AtomsCount(c.atoms);
    case Or(branches) => BranchesCount(branches);
  }

  lemma {:induction false} BranchesCount(branches: seq<Conjunction>)
    ensures BranchesConditions(branches) == |ListedInBranches(branches)|
    decreases branches
  {
    if branches != [] {
      BranchesCount(branches[..|branches| - 1]);
      AtomsCount(branches[|branches| - 1].atoms);
    }
  }

  lemma {:induction false} AtomsCount(atoms: seq<Atom>)
    ensures AtomsConditions(atoms) == |ListedIn(atoms)|
    decreases atoms
  {
    if atoms != [] {
      AtomsCount(atoms[..|atoms| - 1]);
      AtomCount(atoms[|atoms| - 1]);
    }
  }

  lemma {:induction false} AtomCount(a: Atom)
    ensures AtomConditions(a) == 1 + |ListedBelow(a)|
    decreases a
  {
    match a
    case NotAtom(body) => ConditionsCount(body);
    case PredAtom(_, terms) => TermsCount(terms);
    case CmpAtom(sides) => TermsCount(sides);
    case BuiltinAtom(args) => TermsCount(args);
    case InAtom(_) =>
  }

  lemma {:induction false} TermsCount(terms: seq<Term>)
    ensures TermsConditions(terms) == |ListedInTerms(terms)|
    decreases terms
  {
    if terms != [] {
      TermsCount(terms[..|terms| - 1]);
      TermCount(terms[|terms| - 1]);
    }
  }

  lemma {:induction false} TermCount(t: Term)
    ensures TermConditions(t) == |ListedInTerm(t)|
    decreases t
  {
    if t.Aggregate? {
      AtomsCount(t.filter.atoms);
    }
  }

  // ---------- factors ----------

  ghost function Product(ns: seq<nat>): nat {
    if ns == [] then 1 else Product(ns[..|ns| - 1]) * ns[|ns| - 1]
  }

  ghost function Sum(ns: seq<nat>): nat {
    if ns == [] then 0 else Sum(ns[..|ns| - 1]) + ns[|ns| - 1]
  }

  // At least one: what is empty does not make the estimate vanish.
  ghost function OrOne(n: int): nat {
    if n > 1 then n else 1
  }

  // The bound of a conjunction is the product of its atoms' factors.
  ghost predicate IsBound(atoms: seq<Atom>, counts: Counts, bound: nat)
    decreases atoms, 1
  {
    exists factors: seq<nat> :: |factors| == |atoms| && bound == Product(factors)
      && forall k :: 0 <= k < |atoms| ==> IsFactor(atoms[k], counts, factors[k])
  }

  // An aggregate counts for the bound of its filter, a plain term for one.
  ghost predicate IsTermFactor(t: Term, counts: Counts, factor: nat)
    decreases t, 0
  {
    match t
    case Plain => factor == 1
    case Aggregate(filter) => exists bound: nat :: IsBound(filter.atoms, counts, bound) && factor == OrOne(bound)
  }

  ghost predicate IsTermsFactor(terms: seq<Term>, counts: Counts, factor: nat)
    decreases terms, 1
  {
    exists factors: seq<nat> :: |factors| == |terms| && factor == Product(factors)
      && forall k :: 0 <= k < |terms| ==> IsTermFactor(terms[k], counts, factors[k])
  }

  // A predicate counts for its facts, `not` for the bindings of its body, `in` for its values.
  ghost predicate IsFactor(a: Atom, counts: Counts, factor: nat)
    decreases a, 0
  {
    match a
    case PredAtom(pred, terms) =>
      exists inner: nat :: IsTermsFactor(terms, counts, inner)
        && factor == OrOne(if pred in counts then counts[pred] else 0) * inner
    case NotAtom(body) => exists bound: nat :: IsBodyBound(body, counts, bound) && factor == OrOne(bound)
    case InAtom(valueCount) => factor == OrOne(valueCount)
    case CmpAtom(sides) => IsTermsFactor(sides, counts, factor)
    case BuiltinAtom(args) => IsTermsFactor(args, counts, factor)
  }

  // The bound of a body is the sum over its branches.
  ghost predicate IsBodyBound(body: Body, counts: Counts, bound: nat)
    decreases body, 0
  {
    match body
    case And(c) => IsBound(c.atoms, counts, bound)
    case Or(branches) => exists bounds: seq<nat> :: |bounds| == |branches| && bound == Sum(bounds)
                           && forall k :: 0 <= k < |branches| ==> IsBound(branches[k].atoms, counts, bounds[k])
  }

  ghost function AtomFactors(atoms: seq<Atom>, counts: Counts): seq<nat> {
    seq(|atoms|, k requires 0 <= k < |atoms| => AtomFactor(atoms[k], counts))
  }

  ghost function TermFactors(terms: seq<Term>, counts: Counts): seq<nat> {
    seq(|terms|, k requires 0 <= k < |terms| => TermFactor(terms[k], counts))
  }

  ghost function BranchBounds(branches: seq<Conjunction>, counts: Counts): seq<nat> {
    seq(|branches|, k requires 0 <= k < |branches| => AtomsBound(branches[k].atoms, counts))
  }

  lemma {:induction false} AtomsProduct(atoms: seq<Atom>, counts: Counts)
    ensures AtomsBound(atoms, counts) == Product(AtomFactors(atoms, counts))
  {
    if atoms != [] {
      AtomsProduct(atoms[..|atoms| - 1], counts);
      assert AtomFactors(atoms, counts)[..|atoms| - 1] == AtomFactors(atoms[..|atoms| - 1], counts);
    }
  }

  lemma {:induction false} TermsProduct(terms: seq<Term>, counts: Counts)
    ensures TermsFactor(terms, counts) == Product(TermFactors(terms, counts))
  {
    if terms != [] {
      TermsProduct(terms[..|terms| - 1], counts);
      assert TermFactors(terms, counts)[..|terms| - 1] == TermFactors(terms[..|terms| - 1], counts);
    }
  }

  lemma {:induction false} BranchesSum(branches: seq<Conjunction>, counts: Counts)
    ensures BranchesBound(branches, counts) == Sum(BranchBounds(branches, counts))
  {
    if branches != [] {
      BranchesSum(branches[..|branches| - 1], counts);
      assert BranchBounds(branches, counts)[..|branches| - 1] == BranchBounds(branches[..|branches| - 1], counts);
    }
  }

  lemma {:induction false} AtomsBoundMeans(atoms: seq<Atom>, counts: Counts)
    ensures IsBound(atoms, counts, AtomsBound(atoms, counts))
    decreases atoms, 1
  {
    AtomsProduct(atoms, counts);
    var factors := AtomFactors(atoms, counts);
    forall k | 0 <= k < |atoms|
      ensures IsFactor(atoms[k], counts, factors[k])
    {
      AtomFactorMeans(atoms[k], counts);
    }
  }

  lemma {:induction false} TermFactorMeans(t: Term, counts: Counts)
    ensures IsTermFactor(t, counts, TermFactor(t, counts))
    decreases t, 0
  {
    if t.Aggregate? {
      AtomsBoundMeans(t.filter.atoms, counts);
    }
  }

  lemma {:induction false} TermsFactorMeans(terms: seq<Term>, counts: Counts)
    ensures IsTermsFactor(terms, counts, TermsFactor(terms, counts))
    decreases terms, 1
  {
    TermsProduct(terms, counts);
    var factors := TermFactors(terms, counts);
    forall k | 0 <= k < |terms|
      ensures IsTermFactor(terms[k], counts, factors[k])
    {
      TermFactorMeans(terms[k], counts);
    }
  }

  lemma {:induction false} AtomFactorMeans(a: Atom, counts: Counts)
    ensures IsFactor(a, counts, AtomFactor(a, counts))
    decreases a, 0
  {
    match a
    case PredAtom(_, terms) => TermsFactorMeans(terms, counts);
    case NotAtom(body) => BodyBoundMeans(body, counts);
    case InAtom(_) =>
    case CmpAtom(sides) => TermsFactorMeans(sides, counts);
    case BuiltinAtom(args) => TermsFactorMeans(args, counts);
  }

  /** The bound of a body: products of the factors of its atoms, summed over its branches, at every level. */
  lemma {:induction false} BodyBoundMeans(body: Body, counts: Counts)
    ensures IsBodyBound(body, counts, BodyBound(body, counts))
    decreases body, 0
  {
    match body
    case And(c) => AtomsBoundMeans(c.atoms, counts);
    case Or(branches) =>
      BranchesSum(branches, counts);
      var bounds := BranchBounds(branches, counts);
      forall k | 0 <= k < |branches|
        ensures IsBound(branches[k].atoms, counts, bounds[k])
      {
        AtomsBoundMeans(branches[k].atoms, counts);
      }
  }
}
