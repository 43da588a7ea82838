/** The indexed receipt check accepts exactly the receipts that the plain statement describes. */
module ReceiptCheck {
  import opened Wrappers
  import opened WhereEval
  import opened ReceiptKeys
  import opened Receipts

  // ---------- witnesses ----------

  predicate WitnessMatches(w: Witness, expected: map<string, (string, Fact)>, relations: seq<Relation>) {
    && w.key in expected
    && ListsAll(w.ids, IdsOf(relations, expected[w.key].0, expected[w.key].1))
    && w.ids != []
  }

  predicate WitnessesMatch(ws: seq<Witness>, expected: map<string, (string, Fact)>, relations: seq<Relation>) {
    && Distinct(WitnessKeys(ws))
    && Elements(WitnessKeys(ws)) == expected.Keys
    && forall i :: 0 <= i < |ws| ==> WitnessMatches(ws[i], expected, relations)
  }

  /** Every id found through one index is filed under the same tuple in the other. */
  lemma IdsAgree(relations: seq<Relation>, byId: ById, byFact: ByFact, pred: string, fact: Fact, id: string)
    requires UniqueCapture(relations) && IndexesById(byId, relations) && IndexesByFact(byFact, relations)
    requires id in IdsAt(byFact, pred, fact)
    ensures id in byId && byId[id] == (pred, fact)
  {
    assert id in Elements(IdsAt(byFact, pred, fact));
    assert CapturedIn(relations, id, pred, fact) by {
      var r, k :| r in relations && k in r.facts && r.pred == pred && k.fact == fact && k.id == id;
      assert k == Captured(id, fact);
    }
  }

  // The second look-up of every id can never fail after the first comparison has passed.
  method CheckWitness(w: Witness, expected: map<string, (string, Fact)>, byId: ById, byFact: ByFact,
                      ghost relations: seq<Relation>) returns (ok: bool)
    requires UniqueCapture(relations) && IndexesById(byId, relations) && IndexesByFact(byFact, relations)
    requires w.key in expected
    ensures ok <==> WitnessMatches(w, expected, relations)
  {
    var (pred, fact) := expected[w.key];
    if w.ids == [] {
      return false;
    }
    ListedOnce(IdsAt(byFact, pred, fact), w.ids, IdsOf(relations, pred, fact));
    if w.ids != IdsAt(byFact, pred, fact) {
      return false;
    }
    for n := 0 to |w.ids| {
      IdsAgree(relations, byId, byFact, pred, fact, w.ids[n]);
      if w.ids[n] !in byId || byId[w.ids[n]] != (pred, fact) {
        return false;
      }
    }
    ok := true;
  }

  method CheckWitnesses(ws: seq<Witness>, expected: map<string, (string, Fact)>, byId: ById, byFact: ByFact,
                        ghost relations: seq<Relation>) returns (ok: bool)
    requires UniqueCapture(relations) && IndexesById(byId, relations) && IndexesByFact(byFact, relations)
    ensures ok <==> WitnessesMatch(ws, expected, relations)
  {
    if !Distinct(WitnessKeys(ws)) || Elements(WitnessKeys(ws)) != expected.Keys {
      return false;
    }
    for n := 0 to |ws|
      invariant forall i :: 0 <= i < n ==> WitnessMatches(ws[i], expected, relations)
    {
      assert WitnessKeys(ws)[n] in Elements(WitnessKeys(ws));
      var matches := CheckWitness(ws[n], expected, byId, byFact, relations);
      if !matches {
        return false;
      }
    }
    ok := true;
  }

  // ---------- steps ----------

  predicate StepMatches(s: Step, expected: map<string, (string, string, Details)>) {
    s.key in expected && (s.kind, s.status, s.details) == expected[s.key]
  }

  predicate StepsMatch(steps: seq<Step>, expected: map<string, (string, string, Details)>) {
    && Distinct(StepKeys(steps))
    && Elements(StepKeys(steps)) == expected.Keys
    && forall i :: 0 <= i < |steps| ==> StepMatches(steps[i], expected)
  }

  method CheckSteps(steps: seq<Step>, expected: map<string, (string, string, Details)>) returns (ok: bool)
    ensures ok <==> StepsMatch(steps, expected)
  {
    if !Distinct(StepKeys(steps)) || Elements(StepKeys(steps)) != expected.Keys {
      return false;
    }
    for n := 0 to |steps|
      invariant forall i :: 0 <= i < n ==> StepMatches(steps[i], expected)
    {
      assert StepKeys(steps)[n] in Elements(StepKeys(steps));
      var (kind, status, details) := expected[steps[n].key];
      if steps[n].kind != kind || steps[n].status != status || steps[n].details != details {
        return false;
      }
    }
    ok := true;
  }

  // ---------- maps of expectations and the branch ----------

  lemma OneWitness(w: Witness, expected: map<string, (string, Fact)>, branch: seq<Condition>, caseIndex: nat,
                   binding: map<string, Value>, types: map<string, seq<string>>, relations: seq<Relation>,
                   canonical: Canonicalizer)
    requires ExpectedWitnesses(expected, branch, |branch|, caseIndex, binding, types, canonical)
    ensures WitnessMatches(w, expected, relations) <==> Placed(w, branch, caseIndex, binding, types, relations, canonical)
  {
    if w.key in expected {
      var i :| 0 <= i < |branch| && branch[i].PredCondition? && w.key == KeyAt(branch, caseIndex, i);
      forall j | 0 <= j < |branch| && w.key == KeyAt(branch, caseIndex, j)
        ensures j == i
      {
        if j != i {
          KeysAtDiffer(branch, caseIndex, i, j);
        }
      }
      assert WitnessMatches(w, expected, relations)
        <==> WitnessFits(w, branch[i], binding, types, relations, canonical);
    }
  }

  // With every key expected, the keys are all the expected ones iff every condition has its key.
  lemma KeysCover(keys: seq<string>, expected: set<string>, at: set<string>)
    requires at == expected && forall k :: k in keys ==> k in expected
    ensures Elements(keys) == expected <==> forall k :: k in at ==> k in keys
  {
  }

  function PredicateKeys(branch: seq<Condition>, caseIndex: nat): set<string> {
    set i | 0 <= i < |branch| && branch[i].PredCondition? :: KeyAt(branch, caseIndex, i)
  }

  function OtherKeys(branch: seq<Condition>, caseIndex: nat): set<string> {
    set i | 0 <= i < |branch| && branch[i].OtherCondition? :: KeyAt(branch, caseIndex, i)
  }

  lemma WitnessesDescribe(ws: seq<Witness>, expected: map<string, (string, Fact)>, branch: seq<Condition>, caseIndex: nat,
                          binding: map<string, Value>, types: map<string, seq<string>>, relations: seq<Relation>,
                          canonical: Canonicalizer)
    requires ExpectedWitnesses(expected, branch, |branch|, caseIndex, binding, types, canonical)
    ensures WitnessesMatch(ws, expected, relations)
      <==> (&& Distinct(WitnessKeys(ws))
            && EveryPredicateWitnessed(ws, branch, caseIndex)
            && EveryWitnessFits(ws, branch, caseIndex, binding, types, relations, canonical))
  {
    forall w | w in ws
      ensures WitnessMatches(w, expected, relations) <==> Placed(w, branch, caseIndex, binding, types, relations, canonical)
    {
      OneWitness(w, expected, branch, caseIndex, binding, types, relations, canonical);
    }
    assert (forall i :: 0 <= i < |ws| ==> WitnessMatches(ws[i], expected, relations))
      <==> EveryWitnessFits(ws, branch, caseIndex, binding, types, relations, canonical);
    if forall i :: 0 <= i < |ws| ==> WitnessMatches(ws[i], expected, relations) {
      assert forall i :: 0 <= i < |ws| ==> WitnessKeys(ws)[i] in expected;
      KeysCover(WitnessKeys(ws), expected.Keys, PredicateKeys(branch, caseIndex));
    }
  }

  lemma OneStep(s: Step, expected: map<string, (string, string, Details)>, branch: seq<Condition>, caseIndex: nat,
                binding: map<string, Value>)
    requires ExpectedSteps(expected, branch, |branch|, caseIndex, binding)
    ensures StepMatches(s, expected) <==> StepPlaced(s, branch, caseIndex, binding)
  {
    if s.key in expected {
      var i :| 0 <= i < |branch| && branch[i].OtherCondition? && s.key == KeyAt(branch, caseIndex, i);
      forall j | 0 <= j < |branch| && s.key == KeyAt(branch, caseIndex, j)
        ensures j == i
      {
        if j != i {
          KeysAtDiffer(branch, caseIndex, i, j);
        }
      }
      assert StepMatches(s, expected) <==> StepFits(s, branch[i], binding);
    }
  }

  lemma StepsDescribe(steps: seq<Step>, expected: map<string, (string, string, Details)>, branch: seq<Condition>,
                      caseIndex: nat, binding: map<string, Value>)
    requires ExpectedSteps(expected, branch, |branch|, caseIndex, binding)
    ensures StepsMatch(steps, expected)
      <==> (&& Distinct(StepKeys(steps))
            && EveryOtherStepped(steps, branch, caseIndex)
            && EveryStepFits(steps, branch, caseIndex, binding))
  {
    forall s | s in steps
      ensures StepMatches(s, expected) <==> StepPlaced(s, branch, caseIndex, binding)
    {
      OneStep(s, expected, branch, caseIndex, binding);
    }
    assert (forall i :: 0 <= i < |steps| ==> StepMatches(steps[i], expected))
      <==> EveryStepFits(steps, branch, caseIndex, binding);
    if forall i :: 0 <= i < |steps| ==> StepMatches(steps[i], expected) {
      assert forall i :: 0 <= i < |steps| ==> StepKeys(steps)[i] in expected;
      KeysCover(StepKeys(steps), expected.Keys, OtherKeys(branch, caseIndex));
    }
  }

  // ---------- the whole check ----------

  // A receipt that describes a branch names that branch, if the branch has conditions.
  lemma DescribedNames(receipt: Receipt, branch: seq<Condition>, caseIndex: nat, types: map<string, seq<string>>,
                       relations: seq<Relation>, canonical: Canonicalizer)
    requires branch != [] && Describes(receipt, branch, caseIndex, types, relations, canonical)
    ensures AllName(ReceiptKeysOf(receipt), caseIndex)
  {
    var keys := ReceiptKeysOf(receipt);
    assert KeyAt(branch, caseIndex, 0) in keys;
    forall k | 0 <= k < |keys|
      ensures CaseOfKey(keys[k]) == Some(caseIndex)
    {
      var n := |receipt.witnesses|;
      var i: nat;
      if k < n {
        assert receipt.witnesses[k] in receipt.witnesses;
        i :| 0 <= i < |branch| && receipt.witnesses[k].key == KeyAt(branch, caseIndex, i);
      } else {
        assert receipt.steps[k - n] in receipt.steps;
        i :| 0 <= i < |branch| && receipt.steps[k - n].key == KeyAt(branch, caseIndex, i);
      }
      assert keys[k] == KeyAt(branch, caseIndex, i);
      KeyNamesCase(caseIndex, i, if branch[i].PredCondition? then branch[i].pred else branch[i].kind);
    }
  }

  lemma UngroundedIsRefused(receipt: Receipt, branch: seq<Condition>, caseIndex: nat, types: map<string, seq<string>>,
                            relations: seq<Relation>, canonical: Canonicalizer, i: nat)
    requires i < |branch| && branch[i].PredCondition?
    requires GroundCondition(branch[i], BindingOf(receipt.binding), types, canonical).Failure?
    ensures !Describes(receipt, branch, caseIndex, types, relations, canonical)
  {
    if KeyAt(branch, caseIndex, i) in WitnessKeys(receipt.witnesses)
       && EveryWitnessFits(receipt.witnesses, branch, caseIndex, BindingOf(receipt.binding), types, relations, canonical) {
      var n :| 0 <= n < |receipt.witnesses| && WitnessKeys(receipt.witnesses)[n] == KeyAt(branch, caseIndex, i);
      var w := receipt.witnesses[n];
      assert w in receipt.witnesses;
      var j :| 0 <= j < |branch| && w.key == KeyAt(branch, caseIndex, j)
               && WitnessFits(w, branch[j], BindingOf(receipt.binding), types, relations, canonical);
      if j != i {
        KeysAtDiffer(branch, caseIndex, i, j);
      }
    }
  }

  /**
   The indexed check. Its answer is the only branch that the receipt describes in the plain sense,
   and it fails exactly when there is none.
   */
  method ValidateReceiptStaticConsistency(receipt: Receipt, where: seq<seq<Condition>>, types: map<string, seq<string>>,
                                          byId: ById, byFact: ByFact, canonical: Canonicalizer,
                                          ghost relations: seq<Relation>)
    returns (r: Result<nat, string>)
    requires UniqueCapture(relations) && IndexesById(byId, relations) && IndexesByFact(byFact, relations)
    ensures r.Success? ==> Accepts(receipt, where, r.value, types, relations, canonical)
    ensures r.Failure? ==> forall c: nat :: !Accepts(receipt, where, c, types, relations, canonical)
  {
    forall c: nat | Accepts(receipt, where, c, types, relations, canonical)
      ensures AllName(ReceiptKeysOf(receipt), c)
    {
      assert where[c] in where;
      DescribedNames(receipt, where[c], c, types, relations, canonical);
    }
    var selected :- ReceiptCaseIndex(ReceiptKeysOf(receipt));
    OnlyCase(ReceiptKeysOf(receipt), selected);
    if exists b :: b in where && b == [] {
      return Failure("BRANCH_SHAPE");
    }
    if selected >= |where| {
      return Failure("BRANCH_ABSENT");
    }
    r := CheckBranch(receipt, where[selected], selected, types, byId, byFact, canonical, relations);
  }

  lemma OnlyCase(keys: seq<string>, c: nat)
    requires AllName(keys, c)
    ensures forall d: nat :: AllName(keys, d) ==> d == c
  {
    assert CaseOfKey(keys[0]) == Some(c);
  }

  method CheckBranch(receipt: Receipt, branch: seq<Condition>, caseIndex: nat, types: map<string, seq<string>>,
                     byId: ById, byFact: ByFact, canonical: Canonicalizer, ghost relations: seq<Relation>)
    returns (r: Result<nat, string>)
    requires UniqueCapture(relations) && IndexesById(byId, relations) && IndexesByFact(byFact, relations)
    ensures r.Success? <==> Describes(receipt, branch, caseIndex, types, relations, canonical)
    ensures r.Success? ==> r.value == caseIndex
  {
    if !Distinct(BindingKeys(receipt.binding)) {
      return Failure("DUPLICATE_BINDING");
    }
    var binding := BindingOf(receipt.binding);
    var expected := ExpectedConditions(branch, caseIndex, binding, types, canonical);
    if expected.Failure? {
      ghost var i :| 0 <= i < |branch| && branch[i].PredCondition?
                     && GroundCondition(branch[i], binding, types, canonical).Failure?;
      UngroundedIsRefused(receipt, branch, caseIndex, types, relations, canonical, i);
      return Failure(expected.error);
    }
    WitnessesDescribe(receipt.witnesses, expected.value.0, branch, caseIndex, binding, types, relations, canonical);
    StepsDescribe(receipt.steps, expected.value.1, branch, caseIndex, binding);
    var witnessed := CheckWitnesses(receipt.witnesses, expected.value.0, byId, byFact, relations);
    if !witnessed {
      return Failure("WITNESS_MISMATCH");
    }
    var stepped := CheckSteps(receipt.steps, expected.value.1);
    if !stepped {
      return Failure("STEP_MISMATCH");
    }
    r := Success(caseIndex);
  }
}
