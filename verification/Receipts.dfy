/**
 Proof receipts against captured relations: the indexed static check, and the plain statement of
 what it accepts.
 */
module Receipts {
  import opened Wrappers
  import opened WhereEval
  import opened ReceiptKeys
  import Order = StringOrder

  datatype Tagged = Tagged(tag: string, value: Value)

  type Fact = seq<Tagged>

  datatype Captured = Captured(id: string, fact: Fact)

  datatype Relation = Relation(pred: string, facts: seq<Captured>)

  // A condition of a native branch: a predicate atom, or any other atom by kind and text.
  datatype Condition = PredCondition(pred: string, terms: seq<Term>) | OtherCondition(kind: string, repr: string)

  datatype Details = Details(repr: string, binding: map<string, Value>) | OtherDetails(token: int)

  datatype Witness = Witness(key: string, ids: seq<string>)

  datatype Step = Step(key: string, kind: string, status: string, details: Details)

  datatype Receipt = Receipt(binding: seq<(string, Value)>, witnesses: seq<Witness>, steps: seq<Step>)

  // Canonical storage form of a value under a tag; an error for a value of another type.
  type Canonicalizer = (string, Value) -> Result<Value, string>

  // ---------- captured relations ----------

  predicate CapturedIn(relations: seq<Relation>, id: string, pred: string, fact: Fact) {
    exists r :: r in relations && r.pred == pred && Captured(id, fact) in r.facts
  }

  // What a capture guarantees: predicates listed once, assertion ids unique everywhere.
  ghost predicate UniqueCapture(relations: seq<Relation>) {
    && (forall i, j :: 0 <= i < j < |relations| ==> relations[i].pred != relations[j].pred)
    && (forall r, i, j :: r in relations && 0 <= i < j < |r.facts| ==> r.facts[i].id != r.facts[j].id)
    && (forall id, p, f, q, g :: CapturedIn(relations, id, p, f) && CapturedIn(relations, id, q, g) ==> p == q && f == g)
  }

  function IdsIn(facts: seq<Captured>, fact: Fact): set<string> {
    set k | k in facts && k.fact == fact :: k.id
  }

  /** A full scan: the ids of the captured assertions of one tuple. */
  function IdsOf(relations: seq<Relation>, pred: string, fact: Fact): set<string> {
    set r, k | r in relations && k in r.facts && r.pred == pred && k.fact == fact :: k.id
  }

  function Elements(ids: seq<string>): set<string> {
    set x | x in ids
  }

  // The ids of a set in ascending order; there is one such list.
  predicate ListsAll(ids: seq<string>, all: set<string>) {
    Order.Ascending(ids) && Elements(ids) == all
  }

  lemma ListedOnce(a: seq<string>, b: seq<string>, all: set<string>)
    requires ListsAll(a, all)
    ensures ListsAll(b, all) <==> a == b
  {
    if ListsAll(b, all) {
      assert forall k :: k in a <==> k in Elements(a);
      assert forall k :: k in b <==> k in Elements(b);
      Order.AscendingUnique(a, b);
    }
  }

  ghost predicate Groups(grouped: map<Fact, seq<string>>, facts: seq<Captured>) {
    && (forall f :: f in grouped <==> IdsIn(facts, f) != {})
    && (forall f :: f in grouped ==> Elements(grouped[f]) == IdsIn(facts, f))
  }

  function GroupOf(grouped: map<Fact, seq<string>>, f: Fact): seq<string> {
    if f in grouped then grouped[f] else []
  }

  // Groups the ids of one relation by tuple, in order of appearance.
  method GroupByFact(facts: seq<Captured>) returns (grouped: map<Fact, seq<string>>)
    ensures Groups(grouped, facts)
  {
    grouped := map[];
    for k := 0 to |facts|
      invariant Groups(grouped, facts[..k])
    {
      GroupStep(grouped, facts, k);
      grouped := grouped[facts[k].fact := GroupOf(grouped, facts[k].fact) + [facts[k].id]];
    }
    assert facts[..|facts|] == facts;
  }

  lemma GroupStep(grouped: map<Fact, seq<string>>, facts: seq<Captured>, k: nat)
    requires k < |facts| && Groups(grouped, facts[..k])
    ensures Groups(grouped[facts[k].fact := GroupOf(grouped, facts[k].fact) + [facts[k].id]], facts[..k + 1])
  {
    var c := facts[k];
    var prefix, next := facts[..k + 1], grouped[c.fact := GroupOf(grouped, c.fact) + [c.id]];
    forall f
      ensures (f in next <==> IdsIn(prefix, f) != {}) && Elements(GroupOf(next, f)) == IdsIn(prefix, f)
    {
      OneMore(facts, k, f);
      GroupHolds(grouped, facts[..k], f);
      ElementsSnoc(GroupOf(grouped, c.fact), c.id);
    }
    assert forall f :: f in next ==> GroupOf(next, f) == next[f];
  }

  lemma GroupHolds(grouped: map<Fact, seq<string>>, facts: seq<Captured>, f: Fact)
    requires Groups(grouped, facts)
    ensures (f in grouped <==> IdsIn(facts, f) != {}) && Elements(GroupOf(grouped, f)) == IdsIn(facts, f)
  {
  }

  lemma ElementsSnoc(ids: seq<string>, id: string)
    ensures Elements(ids + [id]) == Elements(ids) + {id}
  {
  }

  lemma OneMore(facts: seq<Captured>, k: nat, f: Fact)
    requires k < |facts|
    ensures IdsIn(facts[..k + 1], f) == IdsIn(facts[..k], f) + (if f == facts[k].fact then {facts[k].id} else {})
  {
    assert facts[..k + 1] == facts[..k] + [facts[k]];
    assert forall c :: c in facts[..k + 1] <==> c in facts[..k] || c == facts[k];
  }

  // ---------- indexes ----------

  type ById = map<string, (string, Fact)>

  type ByFact = map<(string, Fact), seq<string>>

  ghost predicate IndexesById(index: ById, relations: seq<Relation>) {
    && (forall id :: id in index ==> CapturedIn(relations, id, index[id].0, index[id].1))
    && (forall id, p, f :: CapturedIn(relations, id, p, f) ==> id in index)
  }

  ghost predicate IndexesByFact(index: ByFact, relations: seq<Relation>) {
    forall p, f :: ListsAll(IdsAt(index, p, f), IdsOf(relations, p, f))
  }

  method IndexById(relations: seq<Relation>) returns (index: ById)
    ensures IndexesById(index, relations)
  {
    index := map[];
    for j := 0 to |relations|
      invariant IndexesById(index, relations[..j])
    {
      index := AddRelation(index, relations, j);
    }
    assert relations[..|relations|] == relations;
  }

  method AddRelation(before: ById, relations: seq<Relation>, j: nat) returns (index: ById)
    requires j < |relations| && IndexesById(before, relations[..j])
    ensures IndexesById(index, relations[..j + 1])
  {
    var r := relations[j];
    index := before;
    for k := 0 to |r.facts|
      invariant forall id :: id in index ==>
        (id in before && index[id] == before[id]) || (index[id].0 == r.pred && Captured(id, index[id].1) in r.facts)
      invariant forall id :: id in before ==> id in index
      invariant forall i :: 0 <= i < k ==> r.facts[i].id in index
    {
      index := index[r.facts[k].id := (r.pred, r.facts[k].fact)];
      assert r.facts[k] == Captured(r.facts[k].id, r.facts[k].fact);
    }
    ghost var prefix := relations[..j + 1];
    forall id | id in index
      ensures CapturedIn(prefix, id, index[id].0, index[id].1)
    {
      OneMoreRelation(relations, j, id, index[id].0, index[id].1);
    }
    forall id, p, f | CapturedIn(prefix, id, p, f)
      ensures id in index
    {
      OneMoreRelation(relations, j, id, p, f);
      if Captured(id, f) in r.facts {
        var i :| 0 <= i < |r.facts| && r.facts[i] == Captured(id, f);
        assert r.facts[i].id in index;
      }
    }
  }

  lemma OneMoreRelation(relations: seq<Relation>, j: nat, id: string, p: string, f: Fact)
    requires j < |relations|
    ensures CapturedIn(relations[..j + 1], id, p, f)
      <==> CapturedIn(relations[..j], id, p, f) || (relations[j].pred == p && Captured(id, f) in relations[j].facts)
  {
    assert relations[..j + 1] == relations[..j] + [relations[j]];
    assert forall r :: r in relations[..j + 1] <==> r in relations[..j] || r == relations[j];
  }

  lemma IdsOfPrefix(relations: seq<Relation>, j: nat, p: string, f: Fact)
    requires UniqueCapture(relations) && j < |relations|
    ensures IdsOf(relations[..j + 1], p, f)
         == if relations[j].pred == p then IdsIn(relations[j].facts, f) else IdsOf(relations[..j], p, f)
  {
    assert relations[..j + 1] == relations[..j] + [relations[j]];
    assert forall r :: r in relations[..j + 1] <==> r in relations[..j] || r == relations[j];
    forall r | r in relations[..j]
      ensures r.pred != relations[j].pred
    {
      var i :| 0 <= i < j && relations[i] == r;
    }
  }

  function IdsAt(index: ByFact, p: string, f: Fact): seq<string> {
    if (p, f) in index then index[(p, f)] else []
  }

  function SortedGroups(grouped: map<Fact, seq<string>>): (r: map<Fact, seq<string>>)
    ensures r.Keys == grouped.Keys && forall f :: f in r ==> ListsAll(r[f], Elements(grouped[f]))
  {
    map f | f in grouped :: Order.Sorted(Elements(grouped[f]))
  }

  method AddGroups(before: ByFact, pred: string, groups: map<Fact, seq<string>>) returns (index: ByFact)
    ensures forall p, f :: IdsAt(index, p, f) == (if p == pred && f in groups then groups[f] else IdsAt(before, p, f))
  {
    index := before;
    var remaining := groups.Keys;
    while remaining != {}
      invariant remaining <= groups.Keys
      invariant forall p, f ::
        IdsAt(index, p, f) == (if p == pred && f in groups.Keys - remaining then groups[f] else IdsAt(before, p, f))
      decreases |remaining|
    {
      var f :| f in remaining;
      ghost var last := index;
      index := index[(pred, f) := groups[f]];
      remaining := remaining - {f};
      assert forall p, g :: IdsAt(index, p, g) == if p == pred && g == f then groups[f] else IdsAt(last, p, g);
    }
  }

  /** The ids of every tuple, sorted: each relation is grouped by tuple and its groups are sorted. */
  method IndexByFact(relations: seq<Relation>) returns (index: ByFact)
    requires UniqueCapture(relations)
    ensures IndexesByFact(index, relations)
  {
    index := map[];
    for j := 0 to |relations|
      invariant IndexesByFact(index, relations[..j])
    {
      var grouped := GroupByFact(relations[j].facts);
      var groups := SortedGroups(grouped);
      var next := AddGroups(index, relations[j].pred, groups);
      IndexStep(index, next, groups, grouped, relations, j);
      index := next;
    }
    assert relations[..|relations|] == relations;
  }

  lemma IndexStep(before: ByFact, next: ByFact, groups: map<Fact, seq<string>>, grouped: map<Fact, seq<string>>,
                  relations: seq<Relation>, j: nat)
    requires UniqueCapture(relations) && j < |relations| && IndexesByFact(before, relations[..j])
    requires Groups(grouped, relations[j].facts) && groups.Keys == grouped.Keys
    requires forall f :: f in groups ==> ListsAll(groups[f], Elements(grouped[f]))
    requires forall p, f ::
      IdsAt(next, p, f) == (if p == relations[j].pred && f in groups then groups[f] else IdsAt(before, p, f))
    ensures IndexesByFact(next, relations[..j + 1])
  {
    var prefix := relations[..j + 1];
    forall p, f
      ensures ListsAll(IdsAt(next, p, f), IdsOf(prefix, p, f))
    {
      IdsOfPrefix(relations, j, p, f);
      NotYet(relations, j, p, f);
      assert ListsAll(IdsAt(before, p, f), IdsOf(relations[..j], p, f));
    }
  }

  // The relation being indexed has no entries yet.
  lemma NotYet(relations: seq<Relation>, j: nat, p: string, f: Fact)
    requires UniqueCapture(relations) && j < |relations|
    ensures relations[j].pred == p ==> IdsOf(relations[..j], p, f) == {}
  {
    forall r | r in relations[..j]
      ensures r.pred != relations[j].pred
    {
      var i :| 0 <= i < j && relations[i] == r;
    }
  }

  // ---------- the receipt a branch requires ----------

  function GroundTerms(terms: seq<Term>, binding: map<string, Value>, types: seq<string>, canonical: Canonicalizer)
    : Result<Fact, string>
    requires |terms| == |types|
  {
    if terms == [] then Success([])
    else
      var raw := Lookup(binding, terms[0]);
      if raw.None? then Failure("UNBOUND_TERM")
      else
        var value :- canonical(types[0], raw.value);
        var rest :- GroundTerms(terms[1..], binding, types[1..], canonical);
        Success([Tagged(types[0], value)] + rest)
  }

  function GroundReceiptTerms(terms: seq<Term>, binding: map<string, Value>, types: seq<string>, canonical: Canonicalizer)
    : Result<Fact, string>
  {
    if |terms| != |types| then Failure("ARITY_MISMATCH") else GroundTerms(terms, binding, types, canonical)
  }

  function GroundCondition(c: Condition, binding: map<string, Value>, types: map<string, seq<string>>, canonical: Canonicalizer)
    : Result<Fact, string>
    requires c.PredCondition?
  {
    if c.pred !in types then Failure("UNKNOWN_PREDICATE") else GroundReceiptTerms(c.terms, binding, types[c.pred], canonical)
  }

  function KeyAt(branch: seq<Condition>, caseIndex: nat, i: nat): string
    requires i < |branch|
  {
    ConditionKey(caseIndex, i, if branch[i].PredCondition? then branch[i].pred else branch[i].kind)
  }

  function ExpectedStatus(kind: string): string {
    if kind == "not" then "no_match" else "satisfied"
  }

  predicate WitnessFits(w: Witness, c: Condition, binding: map<string, Value>, types: map<string, seq<string>>,
                        relations: seq<Relation>, canonical: Canonicalizer) {
    && c.PredCondition?
    && var fact := GroundCondition(c, binding, types, canonical);
    && fact.Success?
    && ListsAll(w.ids, IdsOf(relations, c.pred, fact.value))
    && w.ids != []
  }

  predicate StepFits(s: Step, c: Condition, binding: map<string, Value>) {
    && c.OtherCondition? && s.kind == c.kind && s.details == Details(c.repr, binding)
    && s.status == if c.kind == "not" then "no_match" else "satisfied"
  }

  function BindingOf(items: seq<(string, Value)>): map<string, Value> {
    if items == [] then map[] else BindingOf(items[..|items| - 1])[items[|items| - 1].0 := items[|items| - 1].1]
  }

  predicate Distinct(keys: seq<string>) {
    forall i, j :: 0 <= i < j < |keys| ==> keys[i] != keys[j]
  }

  function WitnessKeys(ws: seq<Witness>): seq<string> {
    seq(|ws|, i requires 0 <= i < |ws| => ws[i].key)
  }

  function StepKeys(steps: seq<Step>): seq<string> {
    seq(|steps|, i requires 0 <= i < |steps| => steps[i].key)
  }

  function BindingKeys(items: seq<(string, Value)>): seq<string> {
    seq(|items|, i requires 0 <= i < |items| => items[i].0)
  }

  ghost predicate EveryPredicateWitnessed(ws: seq<Witness>, branch: seq<Condition>, caseIndex: nat) {
    forall i :: 0 <= i < |branch| && branch[i].PredCondition? ==>
      KeyAt(branch, caseIndex, i) in WitnessKeys(ws)
  }

  ghost predicate Placed(w: Witness, branch: seq<Condition>, caseIndex: nat, binding: map<string, Value>,
                         types: map<string, seq<string>>, relations: seq<Relation>, canonical: Canonicalizer) {
    exists i :: 0 <= i < |branch| && w.key == KeyAt(branch, caseIndex, i)
                && WitnessFits(w, branch[i], binding, types, relations, canonical)
  }

  ghost predicate EveryWitnessFits(ws: seq<Witness>, branch: seq<Condition>, caseIndex: nat, binding: map<string, Value>,
                                   types: map<string, seq<string>>, relations: seq<Relation>, canonical: Canonicalizer) {
    forall w :: w in ws ==> Placed(w, branch, caseIndex, binding, types, relations, canonical)
  }

  ghost predicate EveryOtherStepped(steps: seq<Step>, branch: seq<Condition>, caseIndex: nat) {
    forall i :: 0 <= i < |branch| && branch[i].OtherCondition? ==>
      KeyAt(branch, caseIndex, i) in StepKeys(steps)
  }

  ghost predicate StepPlaced(s: Step, branch: seq<Condition>, caseIndex: nat, binding: map<string, Value>) {
    exists i :: 0 <= i < |branch| && s.key == KeyAt(branch, caseIndex, i) && StepFits(s, branch[i], binding)
  }

  ghost predicate EveryStepFits(steps: seq<Step>, branch: seq<Condition>, caseIndex: nat, binding: map<string, Value>) {
    forall s :: s in steps ==> StepPlaced(s, branch, caseIndex, binding)
  }

  /**
   The plain statement: the receipt holds one witness for each predicate condition of the branch,
   with the sorted ids that a full scan finds for the grounded tuple, one matching step for each
   other condition, and nothing else.
   */
  ghost predicate Describes(receipt: Receipt, branch: seq<Condition>, caseIndex: nat, types: map<string, seq<string>>,
                            relations: seq<Relation>, canonical: Canonicalizer) {
    && Distinct(BindingKeys(receipt.binding)) && Distinct(WitnessKeys(receipt.witnesses)) && Distinct(StepKeys(receipt.steps))
    && EveryPredicateWitnessed(receipt.witnesses, branch, caseIndex)
    && EveryWitnessFits(receipt.witnesses, branch, caseIndex, BindingOf(receipt.binding), types, relations, canonical)
    && EveryOtherStepped(receipt.steps, branch, caseIndex)
    && EveryStepFits(receipt.steps, branch, caseIndex, BindingOf(receipt.binding))
  }

  ghost predicate Accepts(receipt: Receipt, where: seq<seq<Condition>>, caseIndex: nat, types: map<string, seq<string>>,
                          relations: seq<Relation>, canonical: Canonicalizer) {
    && caseIndex < |where|
    && (forall b :: b in where ==> b != [])
    && Describes(receipt, where[caseIndex], caseIndex, types, relations, canonical)
  }

  // ---------- the indexed check ----------

  predicate AllName(keys: seq<string>, c: nat) {
    keys != [] && forall k :: 0 <= k < |keys| ==> CaseOfKey(keys[k]) == Some(c)
  }

  function ReceiptKeysOf(receipt: Receipt): seq<string> {
    WitnessKeys(receipt.witnesses) + StepKeys(receipt.steps)
  }

  /** The one branch number that all keys of a receipt name. */
  method ReceiptCaseIndex(keys: seq<string>) returns (r: Result<nat, string>)
    ensures r.Success? ==> AllName(keys, r.value)
    ensures r.Failure? ==> forall c :: !AllName(keys, c)
  {
    var cases: set<nat> := {};
    for n := 0 to |keys|
      invariant forall k :: 0 <= k < n ==> CaseOfKey(keys[k]).Some? && CaseOfKey(keys[k]).value in cases
      invariant forall c :: c in cases ==> exists k :: 0 <= k < n && CaseOfKey(keys[k]) == Some(c)
    {
      var c := CaseOfKey(keys[n]);
      if c.None? {
        return Failure("MALFORMED_KEY");
      }
      cases := cases + {c.value};
      assert forall k :: 0 <= k < n ==> CaseOfKey(keys[k]).value in cases;
    }
    forall c: nat | AllName(keys, c)
      ensures cases == {c}
    {
      assert CaseOfKey(keys[0]).value in cases;
    }
    if |cases| != 1 {
      return Failure("NOT_ONE_BRANCH");
    }
    var c :| c in cases;
    Singleton(cases, c);
    r := Success(c);
  }

  lemma Singleton(s: set<nat>, c: nat)
    requires |s| == 1 && c in s
    ensures s == {c}
  {
    assert |s - {c}| == 0;
  }

  ghost predicate ExpectedWitnesses(expected: map<string, (string, Fact)>, branch: seq<Condition>, n: nat, caseIndex: nat,
                                    binding: map<string, Value>, types: map<string, seq<string>>, canonical: Canonicalizer)
    requires n <= |branch|
  {
    && (forall i :: 0 <= i < n && branch[i].PredCondition? ==>
          && KeyAt(branch, caseIndex, i) in expected
          && GroundCondition(branch[i], binding, types, canonical)
               == Success(expected[KeyAt(branch, caseIndex, i)].1)
          && expected[KeyAt(branch, caseIndex, i)].0 == branch[i].pred)
    && (forall key :: key in expected ==>
          exists i :: 0 <= i < n && branch[i].PredCondition? && key == KeyAt(branch, caseIndex, i))
  }

  ghost predicate ExpectedSteps(expected: map<string, (string, string, Details)>, branch: seq<Condition>, n: nat,
                                caseIndex: nat, binding: map<string, Value>)
    requires n <= |branch|
  {
    && (forall i :: 0 <= i < n && branch[i].OtherCondition? ==>
          && KeyAt(branch, caseIndex, i) in expected
          && expected[KeyAt(branch, caseIndex, i)]
               == (branch[i].kind, ExpectedStatus(branch[i].kind), Details(branch[i].repr, binding)))
    && (forall key :: key in expected ==>
          exists i :: 0 <= i < n && branch[i].OtherCondition? && key == KeyAt(branch, caseIndex, i))
  }

  lemma KeysAtDiffer(branch: seq<Condition>, caseIndex: nat, i: nat, j: nat)
    requires i < |branch| && j < |branch| && i != j
    ensures KeyAt(branch, caseIndex, i) != KeyAt(branch, caseIndex, j)
  {
    if KeyAt(branch, caseIndex, i) == KeyAt(branch, caseIndex, j) {
      KeysDiffer(caseIndex, i, if branch[i].PredCondition? then branch[i].pred else branch[i].kind,
                 j, if branch[j].PredCondition? then branch[j].pred else branch[j].kind);
    }
  }

  lemma WitnessAdded(expected: map<string, (string, Fact)>, branch: seq<Condition>, i: nat, caseIndex: nat,
                     binding: map<string, Value>, types: map<string, seq<string>>, canonical: Canonicalizer, fact: Fact)
    requires i < |branch| && ExpectedWitnesses(expected, branch, i, caseIndex, binding, types, canonical)
    requires branch[i].PredCondition? && GroundCondition(branch[i], binding, types, canonical) == Success(fact)
    ensures ExpectedWitnesses(expected[KeyAt(branch, caseIndex, i) := (branch[i].pred, fact)],
                              branch, i + 1, caseIndex, binding, types, canonical)
  {
    forall j | 0 <= j < i
      ensures KeyAt(branch, caseIndex, j) != KeyAt(branch, caseIndex, i)
    {
      KeysAtDiffer(branch, caseIndex, i, j);
    }
  }

  lemma WitnessSkipped(expected: map<string, (string, Fact)>, branch: seq<Condition>, i: nat, caseIndex: nat,
                       binding: map<string, Value>, types: map<string, seq<string>>, canonical: Canonicalizer)
    requires i < |branch| && ExpectedWitnesses(expected, branch, i, caseIndex, binding, types, canonical)
    requires branch[i].OtherCondition?
    ensures ExpectedWitnesses(expected, branch, i + 1, caseIndex, binding, types, canonical)
  {
  }

  lemma StepAdded(expected: map<string, (string, string, Details)>, branch: seq<Condition>, i: nat, caseIndex: nat,
                  binding: map<string, Value>)
    requires i < |branch| && ExpectedSteps(expected, branch, i, caseIndex, binding) && branch[i].OtherCondition?
    ensures ExpectedSteps(expected[KeyAt(branch, caseIndex, i)
              := (branch[i].kind, ExpectedStatus(branch[i].kind), Details(branch[i].repr, binding))],
              branch, i + 1, caseIndex, binding)
  {
    forall j | 0 <= j < i
      ensures KeyAt(branch, caseIndex, j) != KeyAt(branch, caseIndex, i)
    {
      KeysAtDiffer(branch, caseIndex, i, j);
    }
  }

  lemma StepSkipped(expected: map<string, (string, string, Details)>, branch: seq<Condition>, i: nat, caseIndex: nat,
                    binding: map<string, Value>)
    requires i < |branch| && ExpectedSteps(expected, branch, i, caseIndex, binding) && branch[i].PredCondition?
    ensures ExpectedSteps(expected, branch, i + 1, caseIndex, binding)
  {
  }

  // The expected witnesses and steps of a branch by key; an error where a term cannot be grounded.
  method ExpectedConditions(branch: seq<Condition>, caseIndex: nat, binding: map<string, Value>,
                            types: map<string, seq<string>>, canonical: Canonicalizer)
    returns (r: Result<(map<string, (string, Fact)>, map<string, (string, string, Details)>), string>)
    ensures r.Failure? <==> exists i :: 0 <= i < |branch| && branch[i].PredCondition?
                                        && GroundCondition(branch[i], binding, types, canonical).Failure?
    ensures r.Success? ==> ExpectedWitnesses(r.value.0, branch, |branch|, caseIndex, binding, types, canonical)
    ensures r.Success? ==> ExpectedSteps(r.value.1, branch, |branch|, caseIndex, binding)
  {
    var witnesses: map<string, (string, Fact)> := map[];
    var steps: map<string, (string, string, Details)> := map[];
    for i := 0 to |branch|
      invariant ExpectedWitnesses(witnesses, branch, i, caseIndex, binding, types, canonical)
      invariant ExpectedSteps(steps, branch, i, caseIndex, binding)
      invariant forall j :: 0 <= j < i && branch[j].PredCondition? ==>
        GroundCondition(branch[j], binding, types, canonical).Success?
    {
      var key := KeyAt(branch, caseIndex, i);
      match branch[i]
      case PredCondition(pred, _) =>
        var fact := GroundCondition(branch[i], binding, types, canonical);
        if fact.Failure? {
          return Failure(fact.error);
        }
        WitnessAdded(witnesses, branch, i, caseIndex, binding, types, canonical, fact.value);
        StepSkipped(steps, branch, i, caseIndex, binding);
        witnesses := witnesses[key := (pred, fact.value)];
      case OtherCondition(kind, repr) =>
        StepAdded(steps, branch, i, caseIndex, binding);
        WitnessSkipped(witnesses, branch, i, caseIndex, binding, types, canonical);
        steps := steps[key := (kind, ExpectedStatus(kind), Details(repr, binding))];
    }
    r := Success((witnesses, steps));
  }
}
