/**
 The two consumers of accepted receipts: the captured-receipt builder and the evidence builder
 check every condition of the selected branch again, and never refuse what the static check accepted.
 */
module ReceiptPlayback {
  import opened Wrappers
  import opened WhereEval
  import opened ReceiptKeys
  import opened Receipts
  import opened ReceiptCheck
  import Order = StringOrder

  datatype CapturedCondition = CapturedCondition(index: nat, key: string, kind: string, pred: Option<string>, ids: seq<string>)

  datatype Evidence = Evidence(key: string, sources: seq<(string, Fact)>)

  // What constructing a receipt guarantees: the ids of a witness are non-empty, sorted and unique.
  predicate WellFormed(receipt: Receipt) {
    forall w :: w in receipt.witnesses ==> Order.Ascending(w.ids) && "" !in w.ids
  }

  // Captured conditions and predicates are named.
  predicate Named(branch: seq<Condition>) {
    forall c :: c in branch ==> if c.PredCondition? then c.pred != "" else c.kind != ""
  }

  // ---------- the captured-receipt builder ----------

  method WitnessIndex(ws: seq<Witness>) returns (r: Result<map<string, Witness>, string>)
    ensures r.Success? <==> Distinct(WitnessKeys(ws)) && "" !in WitnessKeys(ws)
    ensures r.Success? ==> IsWitnessIndex(r.value, ws)
  {
    var index: map<string, Witness> := map[];
    ghost var keys := WitnessKeys(ws);
    for n := 0 to |ws|
      invariant IsWitnessIndex(index, ws[..n])
      invariant forall key :: key in index <==> key in keys[..n]
      invariant Distinct(keys[..n]) && "" !in keys[..n]
    {
      assert keys[n] == ws[n].key && keys[..n + 1] == keys[..n] + [keys[n]];
      assert ws[..n + 1] == ws[..n] + [ws[n]];
      if ws[n].key == "" {
        return Failure("MALFORMED_KEY");
      }
      if ws[n].key in index {
        ghost var i :| 0 <= i < n && keys[i] == keys[n];
        return Failure("DUPLICATE_KEY");
      }
      index := index[ws[n].key := ws[n]];
    }
    assert keys[..|ws|] == keys && ws[..|ws|] == ws;
    r := Success(index);
  }

  ghost predicate IsWitnessIndex(index: map<string, Witness>, ws: seq<Witness>) {
    && (forall w :: w in ws ==> w.key in index)
    && (forall key :: key in index ==> index[key] in ws && index[key].key == key)
  }

  method StepIndex(steps: seq<Step>) returns (r: Result<map<string, Step>, string>)
    ensures r.Success? <==> Distinct(StepKeys(steps)) && "" !in StepKeys(steps)
    ensures r.Success? ==> IsStepIndex(r.value, steps)
  {
    var index: map<string, Step> := map[];
    ghost var keys := StepKeys(steps);
    for n := 0 to |steps|
      invariant IsStepIndex(index, steps[..n])
      invariant forall key :: key in index <==> key in keys[..n]
      invariant Distinct(keys[..n]) && "" !in keys[..n]
    {
      assert keys[n] == steps[n].key && keys[..n + 1] == keys[..n] + [keys[n]];
      assert steps[..n + 1] == steps[..n] + [steps[n]];
      if steps[n].key == "" {
        return Failure("MALFORMED_KEY");
      }
      if steps[n].key in index {
        ghost var i :| 0 <= i < n && keys[i] == keys[n];
        return Failure("DUPLICATE_KEY");
      }
      index := index[steps[n].key := steps[n]];
    }
    assert keys[..|steps|] == keys && steps[..|steps|] == steps;
    r := Success(index);
  }

  ghost predicate IsStepIndex(index: map<string, Step>, steps: seq<Step>) {
    && (forall s :: s in steps ==> s.key in index)
    && (forall key :: key in index ==> index[key] in steps && index[key].key == key)
  }

  /** One condition of the captured receipt, or the error of its check. */
  function CaptureCondition(c: Condition, i: nat, caseIndex: nat, witnesses: map<string, Witness>, steps: map<string, Step>,
                            predicates: map<string, string>): Result<CapturedCondition, string> {
    match c
    case PredCondition(pred, _) =>
      var key := ConditionKey(caseIndex, i, pred);
      if pred == "" then Failure("MALFORMED_PREDICATE")
      else if key !in witnesses then Failure("MISSING_WITNESS")
      else
        var ids := witnesses[key].ids;
        if ids == [] || "" in ids || !Order.Ascending(ids) then Failure("MALFORMED_IDS")
        else if exists id :: id in ids && (id !in predicates || predicates[id] != pred) then Failure("WRONG_PREDICATE")
        else Success(CapturedCondition(i, key, "pred", Some(pred), ids))
    case OtherCondition(kind, _) =>
      var key := ConditionKey(caseIndex, i, kind);
      if kind == "" then Failure("MALFORMED_KIND")
      else if key !in steps || steps[key].kind != kind || steps[key].status != ExpectedStatus(kind) then Failure("WRONG_STEP")
      else Success(CapturedCondition(i, key, kind, None, []))
  }

  // ---------- the evidence builder ----------

  function SourcesOf(ids: seq<string>, byId: ById): seq<(string, Fact)>
    requires forall id :: id in ids ==> id in byId
  {
    seq(|ids|, n requires 0 <= n < |ids| => (ids[n], byId[ids[n]].1))
  }

  function AtomEvidence(c: Condition, i: nat, caseIndex: nat, witnesses: map<string, Witness>, steps: map<string, Step>,
                        byId: ById): Result<Evidence, string> {
    match c
    case PredCondition(pred, _) =>
      var key := ConditionKey(caseIndex, i, pred);
      if key !in witnesses then Failure("MISSING_WITNESS")
      else
        var ids := witnesses[key].ids;
        if exists id :: id in ids && (id !in byId || byId[id].0 != pred) then Failure("WRONG_PREDICATE")
        else Success(Evidence(key, SourcesOf(ids, byId)))
    case OtherCondition(kind, _) =>
      var key := ConditionKey(caseIndex, i, kind);
      if key !in steps || steps[key].kind != kind || steps[key].status != ExpectedStatus(kind) then Failure("WRONG_STEP")
      else Success(Evidence(key, []))
  }

  // ---------- accepted receipts play back ----------

  // The predicate of every captured assertion.
  ghost predicate IndexesPredicates(predicates: map<string, string>, relations: seq<Relation>) {
    forall id, p, f :: CapturedIn(relations, id, p, f) ==> id in predicates && predicates[id] == p
  }

  lemma WitnessFound(receipt: Receipt, branch: seq<Condition>, caseIndex: nat, types: map<string, seq<string>>,
                     relations: seq<Relation>, canonical: Canonicalizer, witnesses: map<string, Witness>, i: nat)
    requires Describes(receipt, branch, caseIndex, types, relations, canonical)
    requires IsWitnessIndex(witnesses, receipt.witnesses) && i < |branch| && branch[i].PredCondition?
    ensures KeyAt(branch, caseIndex, i) in witnesses
    ensures var w := witnesses[KeyAt(branch, caseIndex, i)];
      w in receipt.witnesses && WitnessFits(w, branch[i], BindingOf(receipt.binding), types, relations, canonical)
  {
    var n :| 0 <= n < |receipt.witnesses| && WitnessKeys(receipt.witnesses)[n] == KeyAt(branch, caseIndex, i);
    assert receipt.witnesses[n] in receipt.witnesses;
    var w := witnesses[KeyAt(branch, caseIndex, i)];
    assert Placed(w, branch, caseIndex, BindingOf(receipt.binding), types, relations, canonical);
    var j :| 0 <= j < |branch| && w.key == KeyAt(branch, caseIndex, j)
             && WitnessFits(w, branch[j], BindingOf(receipt.binding), types, relations, canonical);
    if j != i {
      KeysAtDiffer(branch, caseIndex, i, j);
    }
  }

  lemma StepFound(receipt: Receipt, branch: seq<Condition>, caseIndex: nat, steps: map<string, Step>, i: nat)
    requires EveryOtherStepped(receipt.steps, branch, caseIndex)
    requires EveryStepFits(receipt.steps, branch, caseIndex, BindingOf(receipt.binding))
    requires IsStepIndex(steps, receipt.steps) && i < |branch| && branch[i].OtherCondition?
    ensures KeyAt(branch, caseIndex, i) in steps
    ensures StepFits(steps[KeyAt(branch, caseIndex, i)], branch[i], BindingOf(receipt.binding))
  {
    var n :| 0 <= n < |receipt.steps| && StepKeys(receipt.steps)[n] == KeyAt(branch, caseIndex, i);
    assert receipt.steps[n] in receipt.steps;
    var s := steps[KeyAt(branch, caseIndex, i)];
    assert StepPlaced(s, branch, caseIndex, BindingOf(receipt.binding));
    var j :| 0 <= j < |branch| && s.key == KeyAt(branch, caseIndex, j) && StepFits(s, branch[j], BindingOf(receipt.binding));
    if j != i {
      KeysAtDiffer(branch, caseIndex, i, j);
    }
  }

  lemma IdsAreCaptured(relations: seq<Relation>, pred: string, fact: Fact, id: string)
    requires id in IdsOf(relations, pred, fact)
    ensures CapturedIn(relations, id, pred, fact)
  {
    var r, k :| r in relations && k in r.facts && r.pred == pred && k.fact == fact && k.id == id;
    assert k == Captured(id, fact);
  }

  function Pairs(ids: seq<string>, fact: Fact): seq<(string, Fact)> {
    seq(|ids|, n requires 0 <= n < |ids| => (ids[n], fact))
  }

  /**
   A predicate condition of an accepted receipt passes the check of the captured-receipt builder,
   which lists the ids that a full scan finds.
   */
  lemma PredicateCaptured(receipt: Receipt, branch: seq<Condition>, caseIndex: nat, types: map<string, seq<string>>,
                          relations: seq<Relation>, canonical: Canonicalizer, witnesses: map<string, Witness>,
                          steps: map<string, Step>, predicates: map<string, string>, i: nat)
    returns (fact: Fact, ids: seq<string>)
    requires Describes(receipt, branch, caseIndex, types, relations, canonical)
    requires WellFormed(receipt) && Named(branch) && i < |branch| && branch[i].PredCondition?
    requires IsWitnessIndex(witnesses, receipt.witnesses) && IndexesPredicates(predicates, relations)
    ensures GroundCondition(branch[i], BindingOf(receipt.binding), types, canonical) == Success(fact)
    ensures ids != [] && ListsAll(ids, IdsOf(relations, branch[i].pred, fact))
    ensures CaptureCondition(branch[i], i, caseIndex, witnesses, steps, predicates)
         == Success(CapturedCondition(i, KeyAt(branch, caseIndex, i), "pred", Some(branch[i].pred), ids))
  {
    assert branch[i] in branch;
    WitnessFound(receipt, branch, caseIndex, types, relations, canonical, witnesses, i);
    fact := GroundCondition(branch[i], BindingOf(receipt.binding), types, canonical).value;
    ids := witnesses[KeyAt(branch, caseIndex, i)].ids;
    forall id | id in ids
      ensures id in predicates && predicates[id] == branch[i].pred
    {
      assert id in Elements(ids);
      IdsAreCaptured(relations, branch[i].pred, fact, id);
    }
  }

  lemma IdsResolve(relations: seq<Relation>, pred: string, fact: Fact, ids: seq<string>, byId: ById)
    requires ListsAll(ids, IdsOf(relations, pred, fact))
    requires UniqueCapture(relations) && IndexesById(byId, relations)
    ensures forall id :: id in ids ==> id in byId && byId[id] == (pred, fact)
    ensures SourcesOf(ids, byId) == Pairs(ids, fact)
  {
    forall id | id in ids
      ensures id in byId && byId[id] == (pred, fact)
    {
      assert id in Elements(ids);
      IdsAreCaptured(relations, pred, fact, id);
    }
  }

  /** It passes the check of the evidence builder too, which gives each of those ids the grounded tuple. */
  lemma PredicateEvidence(receipt: Receipt, branch: seq<Condition>, caseIndex: nat, types: map<string, seq<string>>,
                          relations: seq<Relation>, canonical: Canonicalizer, witnesses: map<string, Witness>,
                          steps: map<string, Step>, byId: ById, i: nat)
    returns (fact: Fact, ids: seq<string>)
    requires Describes(receipt, branch, caseIndex, types, relations, canonical)
    requires i < |branch| && branch[i].PredCondition? && IsWitnessIndex(witnesses, receipt.witnesses)
    requires UniqueCapture(relations) && IndexesById(byId, relations)
    ensures GroundCondition(branch[i], BindingOf(receipt.binding), types, canonical) == Success(fact)
    ensures ids != [] && ListsAll(ids, IdsOf(relations, branch[i].pred, fact))
    ensures AtomEvidence(branch[i], i, caseIndex, witnesses, steps, byId)
         == Success(Evidence(KeyAt(branch, caseIndex, i), Pairs(ids, fact)))
  {
    WitnessFound(receipt, branch, caseIndex, types, relations, canonical, witnesses, i);
    fact := GroundCondition(branch[i], BindingOf(receipt.binding), types, canonical).value;
    ids := witnesses[KeyAt(branch, caseIndex, i)].ids;
    IdsResolve(relations, branch[i].pred, fact, ids, byId);
  }

  /** Every other condition passes both checks. */
  lemma OtherPlaysBack(receipt: Receipt, branch: seq<Condition>, caseIndex: nat, witnesses: map<string, Witness>,
                       steps: map<string, Step>, predicates: map<string, string>, byId: ById, i: nat)
    requires EveryOtherStepped(receipt.steps, branch, caseIndex)
    requires EveryStepFits(receipt.steps, branch, caseIndex, BindingOf(receipt.binding))
    requires IsStepIndex(steps, receipt.steps) && Named(branch) && i < |branch| && branch[i].OtherCondition?
    ensures CaptureCondition(branch[i], i, caseIndex, witnesses, steps, predicates)
         == Success(CapturedCondition(i, KeyAt(branch, caseIndex, i), branch[i].kind, None, []))
    ensures AtomEvidence(branch[i], i, caseIndex, witnesses, steps, byId) == Success(Evidence(KeyAt(branch, caseIndex, i), []))
  {
    assert branch[i] in branch;
    StepFound(receipt, branch, caseIndex, steps, i);
  }

  // ---------- the builders ----------

  ghost predicate Lists(index: map<string, string>, relations: seq<Relation>) {
    && IndexesPredicates(index, relations)
    && forall id :: id in index ==> exists f :: CapturedIn(relations, id, index[id], f)
  }

  function IdsListed(facts: seq<Captured>): seq<string> {
    seq(|facts|, k requires 0 <= k < |facts| => facts[k].id)
  }

  // The ids of all captured assertions, relation by relation.
  function AllIds(relations: seq<Relation>): seq<string> {
    if relations == [] then []
    else AllIds(relations[..|relations| - 1]) + IdsListed(relations[|relations| - 1].facts)
  }

  lemma {:induction false} AllIdsCaptured(relations: seq<Relation>, id: string)
    requires id in AllIds(relations)
    ensures exists r, k :: r in relations && k in r.facts && k.id == id
  {
    var n := |relations| - 1;
    if id in IdsListed(relations[n].facts) {
      var k :| 0 <= k < |relations[n].facts| && relations[n].facts[k].id == id;
      assert relations[n] in relations && relations[n].facts[k] in relations[n].facts;
    } else {
      AllIdsCaptured(relations[..n], id);
    }
  }

  lemma {:induction false} AllIdsPrefix(relations: seq<Relation>, j: nat)
    requires j <= |relations|
    ensures AllIds(relations[..j]) <= AllIds(relations)
    decreases |relations|
  {
    var n := |relations| - 1;
    if j == |relations| {
      assert relations[..j] == relations;
    } else {
      AllIdsPrefix(relations[..n], j);
      assert relations[..n][..j] == relations[..j];
    }
  }

  /** Assertion ids that are unique across the captured relations are listed once each. */
  lemma {:induction false} UniqueIsListedOnce(relations: seq<Relation>, j: nat)
    requires UniqueCapture(relations) && j <= |relations|
    ensures Distinct(AllIds(relations[..j]))
  {
    if j > 0 {
      var before, facts := AllIds(relations[..j - 1]), relations[j - 1].facts;
      UniqueIsListedOnce(relations, j - 1);
      assert relations[..j][..j - 1] == relations[..j - 1] && relations[j - 1] in relations;
      forall i | 0 <= i < |facts|
        ensures facts[i].id !in before
      {
        if facts[i].id in before {
          AllIdsCaptured(relations[..j - 1], facts[i].id);
          var r, k :| r in relations[..j - 1] && k in r.facts && k.id == facts[i].id;
          assert k == Captured(k.id, k.fact) && facts[i] == Captured(k.id, facts[i].fact);
          assert CapturedIn(relations, k.id, r.pred, k.fact);
          assert CapturedIn(relations, k.id, relations[j - 1].pred, facts[i].fact);
          assert false;
        }
      }
    }
  }

  method AddPredicates(before: map<string, string>, relations: seq<Relation>, j: nat)
    returns (r: Result<map<string, string>, string>)
    requires j < |relations| && Lists(before, relations[..j])
    requires forall id :: id in before <==> id in AllIds(relations[..j])
    requires Distinct(AllIds(relations[..j]))
    ensures r.Success? <==> Distinct(AllIds(relations[..j + 1]))
    ensures r.Success? ==> Lists(r.value, relations[..j + 1])
    ensures r.Success? ==> forall id :: id in r.value <==> id in AllIds(relations[..j + 1])
  {
    var rel := relations[j];
    var index := before;
    ghost var seen, ids := AllIds(relations[..j]), IdsListed(rel.facts);
    assert relations[..j + 1][..j] == relations[..j];
    assert AllIds(relations[..j + 1]) == seen + ids;
    for k := 0 to |rel.facts|
      invariant forall id :: id in index <==> id in before || id in ids[..k]
      invariant forall id :: id in before ==> id in index && index[id] == before[id]
      invariant forall id :: id in ids[..k] ==> index[id] == rel.pred
      invariant Distinct(seen + ids[..k])
    {
      var id := rel.facts[k].id;
      assert ids[k] == id && ids[..k + 1] == ids[..k] + [id];
      if id in index {
        RepeatedId(seen, ids, k);
        return Failure("DUPLICATE_ASSERTION_ID");
      }
      OneMoreId(seen, ids[..k], id);
      index := index[id := rel.pred];
    }
    assert ids[..|ids|] == ids;
    AllListed(relations, j, before, index);
    r := Success(index);
  }

  lemma OneMoreId(seen: seq<string>, ids: seq<string>, id: string)
    requires Distinct(seen + ids) && id !in seen && id !in ids
    ensures Distinct(seen + (ids + [id]))
  {
    assert seen + (ids + [id]) == (seen + ids) + [id];
  }

  lemma RepeatedId(seen: seq<string>, ids: seq<string>, k: nat)
    requires k < |ids| && (ids[k] in seen || ids[k] in ids[..k])
    ensures !Distinct(seen + ids)
  {
    var all := seen + ids;
    assert all[|seen| + k] == ids[k];
    if ids[k] in seen {
      var i :| 0 <= i < |seen| && seen[i] == ids[k];
      assert all[i] == ids[k];
    } else {
      var i :| 0 <= i < k && ids[i] == ids[k];
      assert all[|seen| + i] == ids[k];
    }
  }

  lemma AllListed(relations: seq<Relation>, j: nat, before: map<string, string>, index: map<string, string>)
    requires j < |relations| && Lists(before, relations[..j])
    requires forall id :: id in index <==> id in before || id in IdsListed(relations[j].facts)
    requires forall id :: id in before ==> id in index && index[id] == before[id]
    requires forall id :: id in IdsListed(relations[j].facts) ==> index[id] == relations[j].pred
    ensures Lists(index, relations[..j + 1])
  {
    ghost var prefix := relations[..j + 1];
    forall id, p, f | CapturedIn(prefix, id, p, f)
      ensures id in index && index[id] == p
    {
      OneMoreRelation(relations, j, id, p, f);
      if Captured(id, f) in relations[j].facts && relations[j].pred == p {
        var i :| 0 <= i < |relations[j].facts| && relations[j].facts[i] == Captured(id, f);
        assert IdsListed(relations[j].facts)[i] == id;
      }
    }
    forall id | id in index
      ensures exists f :: CapturedIn(prefix, id, index[id], f)
    {
      if id in before && index[id] == before[id] {
        var f :| CapturedIn(relations[..j], id, before[id], f);
        OneMoreRelation(relations, j, id, index[id], f);
      } else {
        assert id in IdsListed(relations[j].facts);
        var i :| 0 <= i < |relations[j].facts| && relations[j].facts[i].id == id;
        var f := relations[j].facts[i].fact;
        assert relations[j].facts[i] == Captured(id, f);
        OneMoreRelation(relations, j, id, index[id], f);
      }
    }
  }

  /** The predicate of every captured assertion; refused exactly if an id is captured twice. */
  method PredicatesById(relations: seq<Relation>) returns (r: Result<map<string, string>, string>)
    ensures r.Success? <==> Distinct(AllIds(relations))
    ensures UniqueCapture(relations) ==> r.Success?
    ensures r.Success? ==> Lists(r.value, relations)
  {
    var index: map<string, string> := map[];
    assert relations[..|relations|] == relations;
    if UniqueCapture(relations) {
      UniqueIsListedOnce(relations, |relations|);
    }
    for j := 0 to |relations|
      invariant Lists(index, relations[..j]) && Distinct(AllIds(relations[..j]))
      invariant forall id :: id in index <==> id in AllIds(relations[..j])
    {
      var added := AddPredicates(index, relations, j);
      if added.Failure? {
        AllIdsPrefix(relations, j + 1);
        return Failure(added.error);
      }
      index := added.value;
    }
    r := Success(index);
  }

  lemma KeysNamed(receipt: Receipt, branch: seq<Condition>, caseIndex: nat, types: map<string, seq<string>>,
                  relations: seq<Relation>, canonical: Canonicalizer)
    requires Describes(receipt, branch, caseIndex, types, relations, canonical)
    ensures "" !in WitnessKeys(receipt.witnesses) && "" !in StepKeys(receipt.steps)
  {
    forall n | 0 <= n < |receipt.witnesses|
      ensures WitnessKeys(receipt.witnesses)[n] != ""
    {
      assert receipt.witnesses[n] in receipt.witnesses;
      assert Placed(receipt.witnesses[n], branch, caseIndex, BindingOf(receipt.binding), types, relations, canonical);
    }
    forall n | 0 <= n < |receipt.steps|
      ensures StepKeys(receipt.steps)[n] != ""
    {
      assert receipt.steps[n] in receipt.steps;
      assert StepPlaced(receipt.steps[n], branch, caseIndex, BindingOf(receipt.binding));
    }
  }

  // What playing back a branch means: one result per condition, under the condition's own key.
  ghost predicate PlayableIn(receipt: Receipt, branch: seq<Condition>, caseIndex: nat, types: map<string, seq<string>>,
                             relations: seq<Relation>, canonical: Canonicalizer) {
    && UniqueCapture(relations) && WellFormed(receipt) && Named(branch)
    && Describes(receipt, branch, caseIndex, types, relations, canonical)
  }

  // What a captured condition shows: the ids a full scan finds for the grounded tuple, or the kind of the step.
  ghost predicate CapturesAt(c: CapturedCondition, receipt: Receipt, branch: seq<Condition>, caseIndex: nat, i: nat,
                             types: map<string, seq<string>>, relations: seq<Relation>, canonical: Canonicalizer)
    requires i < |branch|
  {
    if branch[i].PredCondition? then
      var fact := GroundCondition(branch[i], BindingOf(receipt.binding), types, canonical);
      && fact.Success? && c.ids != [] && ListsAll(c.ids, IdsOf(relations, branch[i].pred, fact.value))
      && c == CapturedCondition(i, KeyAt(branch, caseIndex, i), "pred", Some(branch[i].pred), c.ids)
    else c == CapturedCondition(i, KeyAt(branch, caseIndex, i), branch[i].kind, None, [])
  }

  datatype Tables = Tables(witnesses: map<string, Witness>, steps: map<string, Step>, predicates: map<string, string>)

  ghost predicate TablesOf(tables: Tables, receipt: Receipt, relations: seq<Relation>) {
    && IsWitnessIndex(tables.witnesses, receipt.witnesses)
    && IsStepIndex(tables.steps, receipt.steps)
    && Lists(tables.predicates, relations)
  }

  lemma CapturedAt(receipt: Receipt, branch: seq<Condition>, caseIndex: nat, types: map<string, seq<string>>,
                   relations: seq<Relation>, canonical: Canonicalizer, tables: Tables, i: nat)
    requires PlayableIn(receipt, branch, caseIndex, types, relations, canonical) && TablesOf(tables, receipt, relations)
    requires i < |branch|
    ensures var c := CaptureCondition(branch[i], i, caseIndex, tables.witnesses, tables.steps, tables.predicates);
      c.Success? && CapturesAt(c.value, receipt, branch, caseIndex, i, types, relations, canonical)
  {
    if branch[i].PredCondition? {
      var _, _ := PredicateCaptured(receipt, branch, caseIndex, types, relations, canonical, tables.witnesses, tables.steps,
                                    tables.predicates, i);
    } else {
      OtherPlaysBack(receipt, branch, caseIndex, tables.witnesses, tables.steps, tables.predicates, map[], i);
    }
  }

  ghost predicate Captures(conditions: seq<CapturedCondition>, branch: seq<Condition>, caseIndex: nat, tables: Tables)
    requires |conditions| <= |branch|
  {
    forall j :: 0 <= j < |conditions| ==>
      CaptureCondition(branch[j], j, caseIndex, tables.witnesses, tables.steps, tables.predicates) == Success(conditions[j])
  }

  lemma MoreCaptured(conditions: seq<CapturedCondition>, condition: CapturedCondition, branch: seq<Condition>, caseIndex: nat,
                     tables: Tables)
    requires |conditions| < |branch| && Captures(conditions, branch, caseIndex, tables)
    requires CaptureCondition(branch[|conditions|], |conditions|, caseIndex, tables.witnesses, tables.steps, tables.predicates)
          == Success(condition)
    ensures Captures(conditions + [condition], branch, caseIndex, tables)
  {
  }

  lemma CaptureShown(receipt: Receipt, branch: seq<Condition>, caseIndex: nat, types: map<string, seq<string>>,
                     relations: seq<Relation>, canonical: Canonicalizer, tables: Tables, conditions: seq<CapturedCondition>)
    requires PlayableIn(receipt, branch, caseIndex, types, relations, canonical) && TablesOf(tables, receipt, relations)
    requires |conditions| == |branch| && Captures(conditions, branch, caseIndex, tables)
    ensures forall i :: 0 <= i < |branch| ==> CapturesAt(conditions[i], receipt, branch, caseIndex, i, types, relations, canonical)
  {
    forall i | 0 <= i < |branch|
      ensures CapturesAt(conditions[i], receipt, branch, caseIndex, i, types, relations, canonical)
    {
      CapturedAt(receipt, branch, caseIndex, types, relations, canonical, tables, i);
    }
  }

  // The three tables the builder needs, or the error of the one that cannot be built.
  method BuildTables(receipt: Receipt, relations: seq<Relation>) returns (r: Result<Tables, string>)
    ensures r.Success? <==>
      && Distinct(WitnessKeys(receipt.witnesses)) && "" !in WitnessKeys(receipt.witnesses)
      && Distinct(StepKeys(receipt.steps)) && "" !in StepKeys(receipt.steps)
      && Distinct(AllIds(relations))
    ensures UniqueCapture(relations) ==> Distinct(AllIds(relations))
    ensures r.Success? ==> TablesOf(r.value, receipt, relations)
  {
    if UniqueCapture(relations) {
      UniqueIsListedOnce(relations, |relations|);
      assert relations[..|relations|] == relations;
    }
    var witnesses :- WitnessIndex(receipt.witnesses);
    var steps :- StepIndex(receipt.steps);
    var predicates :- PredicatesById(relations);
    r := Success(Tables(witnesses, steps, predicates));
  }

  method CaptureConditions(receipt: Receipt, branch: seq<Condition>, caseIndex: nat, relations: seq<Relation>,
                           ghost types: map<string, seq<string>>, ghost canonical: Canonicalizer)
    returns (r: Result<seq<CapturedCondition>, string>, ghost tables: Tables)
    ensures r.Success? ==>
      TablesOf(tables, receipt, relations) && |r.value| == |branch| && Captures(r.value, branch, caseIndex, tables)
    ensures PlayableIn(receipt, branch, caseIndex, types, relations, canonical) ==>
      && r.Success? && |r.value| == |branch|
      && forall i :: 0 <= i < |branch| ==> CapturesAt(r.value[i], receipt, branch, caseIndex, i, types, relations, canonical)
  {
    ghost var playable := PlayableIn(receipt, branch, caseIndex, types, relations, canonical);
    if playable {
      KeysNamed(receipt, branch, caseIndex, types, relations, canonical);
    }
    tables := Tables(map[], map[], map[]);
    var built :- BuildTables(receipt, relations);
    tables := built;
    var conditions: seq<CapturedCondition> := [];
    for i := 0 to |branch|
      invariant |conditions| == i && Captures(conditions, branch, caseIndex, built)
    {
      if playable {
        CapturedAt(receipt, branch, caseIndex, types, relations, canonical, built, i);
      }
      var condition :- CaptureCondition(branch[i], i, caseIndex, built.witnesses, built.steps, built.predicates);
      MoreCaptured(conditions, condition, branch, caseIndex, built);
      conditions := conditions + [condition];
    }
    if playable {
      CaptureShown(receipt, branch, caseIndex, types, relations, canonical, built, conditions);
    }
    r := Success(conditions);
  }

  // The branch that all keys of a receipt name, if the plan has it.
  method SelectBranch(receipt: Receipt, where: seq<seq<Condition>>) returns (r: Result<nat, string>)
    ensures r.Success? <==> exists c: nat :: c < |where| && where[c] != [] && AllName(ReceiptKeysOf(receipt), c)
    ensures r.Success? ==> r.value < |where| && where[r.value] != [] && AllName(ReceiptKeysOf(receipt), r.value)
  {
    var selected :- ReceiptCaseIndex(ReceiptKeysOf(receipt));
    OnlyCase(ReceiptKeysOf(receipt), selected);
    r := if selected >= |where| || where[selected] == [] then Failure("BRANCH_ABSENT") else Success(selected);
  }

  // The branch of an accepted receipt, with captured assertion ids unique.
  ghost predicate Playable(receipt: Receipt, where: seq<seq<Condition>>, caseIndex: nat, types: map<string, seq<string>>,
                           relations: seq<Relation>, canonical: Canonicalizer) {
    && Accepts(receipt, where, caseIndex, types, relations, canonical)
    && PlayableIn(receipt, where[caseIndex], caseIndex, types, relations, canonical)
  }

  lemma PlayableSelected(receipt: Receipt, where: seq<seq<Condition>>, caseIndex: nat, types: map<string, seq<string>>,
                         relations: seq<Relation>, canonical: Canonicalizer)
    requires Playable(receipt, where, caseIndex, types, relations, canonical)
    ensures where[caseIndex] != [] && AllName(ReceiptKeysOf(receipt), caseIndex)
    ensures forall d: nat :: AllName(ReceiptKeysOf(receipt), d) ==> d == caseIndex
  {
    assert where[caseIndex] in where;
    DescribedNames(receipt, where[caseIndex], caseIndex, types, relations, canonical);
    OnlyCase(ReceiptKeysOf(receipt), caseIndex);
  }

  // The conditions that the checks yield in the branch that all keys name.
  ghost predicate CapturedFrom(conditions: seq<CapturedCondition>, receipt: Receipt, where: seq<seq<Condition>>,
                               relations: seq<Relation>, selected: nat, tables: Tables) {
    && selected < |where| && AllName(ReceiptKeysOf(receipt), selected)
    && TablesOf(tables, receipt, relations)
    && |conditions| == |where[selected]| && Captures(conditions, where[selected], selected, tables)
  }

  /**
   The captured receipt of an accepted receipt: the branch it names, and for every condition what a
   full scan of the captured relations shows. Whatever is captured is what the checks yield.
   */
  method CaptureReceipt(receipt: Receipt, where: seq<seq<Condition>>, relations: seq<Relation>,
                        ghost caseIndex: nat, ghost types: map<string, seq<string>>, ghost canonical: Canonicalizer)
    returns (r: Result<seq<CapturedCondition>, string>)
    ensures r.Success? ==>
      exists selected: nat, tables :: CapturedFrom(r.value, receipt, where, relations, selected, tables)
    ensures Playable(receipt, where, caseIndex, types, relations, canonical) ==>
      && r.Success? && |r.value| == |where[caseIndex]|
      && forall i :: 0 <= i < |r.value| ==>
           CapturesAt(r.value[i], receipt, where[caseIndex], caseIndex, i, types, relations, canonical)
  {
    if Playable(receipt, where, caseIndex, types, relations, canonical) {
      PlayableSelected(receipt, where, caseIndex, types, relations, canonical);
    }
    var branch :- SelectBranch(receipt, where);
    ghost var tables;
    r, tables := CaptureConditions(receipt, where[branch], branch, relations, types, canonical);
    assert r.Success? ==> CapturedFrom(r.value, receipt, where, relations, branch, tables);
  }

  method WitnessTable(ws: seq<Witness>) returns (table: map<string, Witness>)
    ensures IsWitnessIndex(table, ws)
  {
    table := map[];
    for n := 0 to |ws|
      invariant IsWitnessIndex(table, ws[..n])
    {
      assert ws[..n + 1] == ws[..n] + [ws[n]];
      table := table[ws[n].key := ws[n]];
    }
    assert ws[..|ws|] == ws;
  }

  method StepTable(steps: seq<Step>) returns (table: map<string, Step>)
    ensures IsStepIndex(table, steps)
  {
    table := map[];
    for n := 0 to |steps|
      invariant IsStepIndex(table, steps[..n])
    {
      assert steps[..n + 1] == steps[..n] + [steps[n]];
      table := table[steps[n].key := steps[n]];
    }
    assert steps[..|steps|] == steps;
  }

  // What the evidence of a condition shows: the ids a full scan finds, each with the grounded tuple.
  ghost predicate EvidenceAt(e: Evidence, receipt: Receipt, branch: seq<Condition>, caseIndex: nat, i: nat,
                             types: map<string, seq<string>>, relations: seq<Relation>, canonical: Canonicalizer)
    requires i < |branch|
  {
    && e.key == KeyAt(branch, caseIndex, i)
    && if branch[i].PredCondition? then
         var fact := GroundCondition(branch[i], BindingOf(receipt.binding), types, canonical);
         fact.Success? && exists ids :: ids != [] && ListsAll(ids, IdsOf(relations, branch[i].pred, fact.value))
                                        && e.sources == Pairs(ids, fact.value)
       else e.sources == []
  }

  lemma EvidencedAt(receipt: Receipt, branch: seq<Condition>, caseIndex: nat, types: map<string, seq<string>>,
                    relations: seq<Relation>, canonical: Canonicalizer, witnesses: map<string, Witness>,
                    steps: map<string, Step>, byId: ById, i: nat)
    requires PlayableIn(receipt, branch, caseIndex, types, relations, canonical) && i < |branch|
    requires IsWitnessIndex(witnesses, receipt.witnesses) && IsStepIndex(steps, receipt.steps) && IndexesById(byId, relations)
    ensures var e := AtomEvidence(branch[i], i, caseIndex, witnesses, steps, byId);
      e.Success? && EvidenceAt(e.value, receipt, branch, caseIndex, i, types, relations, canonical)
  {
    if branch[i].PredCondition? {
      var fact, ids := PredicateEvidence(receipt, branch, caseIndex, types, relations, canonical, witnesses, steps, byId, i);
    } else {
      OtherPlaysBack(receipt, branch, caseIndex, witnesses, steps, map[], byId, i);
    }
  }

  datatype EvidenceTables = EvidenceTables(witnesses: map<string, Witness>, steps: map<string, Step>, byId: ById)

  ghost predicate EvidenceTablesOf(tables: EvidenceTables, receipt: Receipt, relations: seq<Relation>) {
    && IsWitnessIndex(tables.witnesses, receipt.witnesses)
    && IsStepIndex(tables.steps, receipt.steps)
    && IndexesById(tables.byId, relations)
  }

  ghost predicate Evidences(atoms: seq<Evidence>, branch: seq<Condition>, caseIndex: nat, tables: EvidenceTables)
    requires |atoms| <= |branch|
  {
    forall j :: 0 <= j < |atoms| ==>
      AtomEvidence(branch[j], j, caseIndex, tables.witnesses, tables.steps, tables.byId) == Success(atoms[j])
  }

  lemma MoreEvidence(atoms: seq<Evidence>, atom: Evidence, branch: seq<Condition>, caseIndex: nat, tables: EvidenceTables)
    requires |atoms| < |branch| && Evidences(atoms, branch, caseIndex, tables)
    requires AtomEvidence(branch[|atoms|], |atoms|, caseIndex, tables.witnesses, tables.steps, tables.byId) == Success(atom)
    ensures Evidences(atoms + [atom], branch, caseIndex, tables)
  {
  }

  lemma EvidenceShown(receipt: Receipt, branch: seq<Condition>, caseIndex: nat, types: map<string, seq<string>>,
                      relations: seq<Relation>, canonical: Canonicalizer, tables: EvidenceTables, atoms: seq<Evidence>)
    requires PlayableIn(receipt, branch, caseIndex, types, relations, canonical)
    requires EvidenceTablesOf(tables, receipt, relations)
    requires |atoms| == |branch| && Evidences(atoms, branch, caseIndex, tables)
    ensures forall i :: 0 <= i < |branch| ==> EvidenceAt(atoms[i], receipt, branch, caseIndex, i, types, relations, canonical)
  {
    forall i | 0 <= i < |branch|
      ensures EvidenceAt(atoms[i], receipt, branch, caseIndex, i, types, relations, canonical)
    {
      EvidencedAt(receipt, branch, caseIndex, types, relations, canonical, tables.witnesses, tables.steps, tables.byId, i);
    }
  }

  method EvidenceConditions(receipt: Receipt, branch: seq<Condition>, caseIndex: nat, tables: EvidenceTables,
                            ghost relations: seq<Relation>, ghost types: map<string, seq<string>>, ghost canonical: Canonicalizer)
    returns (r: Result<seq<Evidence>, string>)
    requires EvidenceTablesOf(tables, receipt, relations)
    ensures r.Success? ==> |r.value| == |branch| && Evidences(r.value, branch, caseIndex, tables)
    ensures PlayableIn(receipt, branch, caseIndex, types, relations, canonical) ==>
      && r.Success? && |r.value| == |branch|
      && forall i :: 0 <= i < |branch| ==> EvidenceAt(r.value[i], receipt, branch, caseIndex, i, types, relations, canonical)
  {
    ghost var playable := PlayableIn(receipt, branch, caseIndex, types, relations, canonical);
    var atoms: seq<Evidence> := [];
    for i := 0 to |branch|
      invariant |atoms| == i && Evidences(atoms, branch, caseIndex, tables)
    {
      if playable {
        EvidencedAt(receipt, branch, caseIndex, types, relations, canonical, tables.witnesses, tables.steps, tables.byId, i);
      }
      var atom :- AtomEvidence(branch[i], i, caseIndex, tables.witnesses, tables.steps, tables.byId);
      MoreEvidence(atoms, atom, branch, caseIndex, tables);
      atoms := atoms + [atom];
    }
    if playable {
      EvidenceShown(receipt, branch, caseIndex, types, relations, canonical, tables, atoms);
    }
    r := Success(atoms);
  }

  ghost predicate EvidencedFrom(atoms: seq<Evidence>, receipt: Receipt, where: seq<seq<Condition>>,
                                relations: seq<Relation>, selected: nat, tables: EvidenceTables) {
    && selected < |where| && AllName(ReceiptKeysOf(receipt), selected)
    && EvidenceTablesOf(tables, receipt, relations)
    && |atoms| == |where[selected]| && Evidences(atoms, where[selected], selected, tables)
  }

  /**
   The evidence of an accepted receipt, condition by condition in the branch it names; the tables are
   built without a duplicate check. Whatever is built is what the checks yield.
   */
  method BuildEvidence(receipt: Receipt, where: seq<seq<Condition>>, relations: seq<Relation>,
                       ghost caseIndex: nat, ghost types: map<string, seq<string>>, ghost canonical: Canonicalizer)
    returns (r: Result<seq<Evidence>, string>)
    ensures r.Success? ==>
      exists selected: nat, tables :: EvidencedFrom(r.value, receipt, where, relations, selected, tables)
    ensures Playable(receipt, where, caseIndex, types, relations, canonical) ==>
      && r.Success? && |r.value| == |where[caseIndex]|
      && forall i :: 0 <= i < |r.value| ==>
           EvidenceAt(r.value[i], receipt, where[caseIndex], caseIndex, i, types, relations, canonical)
  {
    if Playable(receipt, where, caseIndex, types, relations, canonical) {
      PlayableSelected(receipt, where, caseIndex, types, relations, canonical);
    }
    var branch :- SelectBranch(receipt, where);
    var witnesses := WitnessTable(receipt.witnesses);
    var steps := StepTable(receipt.steps);
    var byId := IndexById(relations);
    var tables := EvidenceTables(witnesses, steps, byId);
    r := EvidenceConditions(receipt, where[branch], branch, tables, relations, types, canonical);
    assert r.Success? ==> EvidencedFrom(r.value, receipt, where, relations, branch, tables);
  }
}
