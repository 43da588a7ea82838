/** What grounding a condition reads, and that nothing is captured or cited that the relations do not hold. */
module ReceiptMeaning {
  import opened Wrappers
  import opened WhereEval
  import opened ReceiptKeys
  import opened Receipts
  import opened ReceiptPlayback
  import Order = StringOrder
  import Semantics

  // ---------- keys ----------

  lemma {:induction false} SameDecimal(n: nat)
    ensures ReceiptKeys.Decimal(n) == Semantics.DecimalNat(n)
  {
    if n >= 10 {
      SameDecimal(n / 10);
    }
  }

  /** The key of a condition: its branch number, its place in the branch and its name. */
  lemma KeyIs(caseIndex: nat, index: nat, name: string)
    ensures ConditionKey(caseIndex, index, name)
         == "c" + Semantics.DecimalNat(caseIndex) + ".c" + Semantics.DecimalNat(index) + ":" + name
  {
    SameDecimal(caseIndex);
    SameDecimal(index);
  }

  // ---------- grounding ----------

  // A constant stands for itself, a variable for what the binding gives it.
  ghost predicate StandsFor(t: Term, binding: map<string, Value>, v: Value) {
    if t.Const? then v == t.value else t.name in binding && v == binding[t.name]
  }

  // A term of the tuple: the canonical form of the value, under the tag of its position.
  ghost predicate GroundedAs(t: Term, binding: map<string, Value>, tag: string, canonical: Canonicalizer, x: Tagged) {
    x.tag == tag && exists v :: StandsFor(t, binding, v) && canonical(tag, v) == Success(x.value)
  }

  ghost predicate TermsGrounded(terms: seq<Term>, binding: map<string, Value>, types: seq<string>, canonical: Canonicalizer, fact: Fact) {
    && |fact| == |terms| == |types|
    && forall i :: 0 <= i < |terms| ==> GroundedAs(terms[i], binding, types[i], canonical, fact[i])
  }

  lemma TermMeans(t: Term, binding: map<string, Value>, v: Value)
    ensures Lookup(binding, t) == Some(v) <==> StandsFor(t, binding, v)
  {
  }

  lemma FirstGrounded(t: Term, binding: map<string, Value>, tag: string, canonical: Canonicalizer, x: Tagged)
    ensures GroundedAs(t, binding, tag, canonical, x) <==>
      var raw := Lookup(binding, t); raw.Some? && x.tag == tag && canonical(tag, raw.value) == Success(x.value)
  {
    var raw := Lookup(binding, t);
    if raw.Some? {
      TermMeans(t, binding, raw.value);
    }
    if v :| StandsFor(t, binding, v) && canonical(tag, v) == Success(x.value) {
      TermMeans(t, binding, v);
    }
  }

  lemma GroundedCons(terms: seq<Term>, binding: map<string, Value>, types: seq<string>, canonical: Canonicalizer, fact: Fact)
    requires |fact| == |terms| == |types| > 0
    ensures TermsGrounded(terms, binding, types, canonical, fact)
      <==> GroundedAs(terms[0], binding, types[0], canonical, fact[0])
           && TermsGrounded(terms[1..], binding, types[1..], canonical, fact[1..])
  {
    if GroundedAs(terms[0], binding, types[0], canonical, fact[0])
       && TermsGrounded(terms[1..], binding, types[1..], canonical, fact[1..]) {
      forall i | 0 <= i < |terms|
        ensures GroundedAs(terms[i], binding, types[i], canonical, fact[i])
      {
        if i > 0 {
          assert GroundedAs(terms[1..][i - 1], binding, types[1..][i - 1], canonical, fact[1..][i - 1]);
        }
      }
    }
  }

  lemma {:induction false} GroundTermsMean(terms: seq<Term>, binding: map<string, Value>, types: seq<string>, canonical: Canonicalizer,
                                           fact: Fact)
    requires |terms| == |types|
    ensures GroundTerms(terms, binding, types, canonical) == Success(fact) <==> TermsGrounded(terms, binding, types, canonical, fact)
  {
    if terms != [] && fact != [] {
      FirstGrounded(terms[0], binding, types[0], canonical, fact[0]);
      GroundTermsMean(terms[1..], binding, types[1..], canonical, fact[1..]);
      if |fact| == |terms| {
        GroundedCons(terms, binding, types, canonical, fact);
      }
      assert fact == [fact[0]] + fact[1..];
    }
  }

  /** A predicate condition is grounded term by term, in canonical form, as the types of the predicate say. */
  lemma GroundConditionMeans(c: Condition, binding: map<string, Value>, types: map<string, seq<string>>, canonical: Canonicalizer, fact: Fact)
    requires c.PredCondition?
    ensures GroundCondition(c, binding, types, canonical) == Success(fact)
      <==> c.pred in types && TermsGrounded(c.terms, binding, types[c.pred], canonical, fact)
  {
    if c.pred in types && |c.terms| == |types[c.pred]| {
      GroundTermsMean(c.terms, binding, types[c.pred], canonical, fact);
    }
  }

  // The last item of its key.
  ghost predicate LastItem(items: seq<(string, Value)>, i: nat) {
    i < |items| && forall j :: i < j < |items| ==> items[j].0 != items[i].0
  }

  ghost predicate ItemFor(items: seq<(string, Value)>, key: string, value: Value, i: nat) {
    LastItem(items, i) && items[i] == (key, value)
  }

  lemma ItemBefore(items: seq<(string, Value)>, key: string, value: Value, i: nat)
    requires items != [] && i < |items| - 1 && items[|items| - 1].0 != key
    ensures ItemFor(items, key, value, i) <==> ItemFor(items[..|items| - 1], key, value, i)
  {
    var before := items[..|items| - 1];
    assert forall j :: 0 <= j < |before| ==> before[j] == items[j];
  }

  /** The binding of a receipt gives every variable the value of the last item that names it. */
  lemma {:induction false} BindingMeans(items: seq<(string, Value)>, key: string, value: Value)
    ensures key in BindingOf(items) && BindingOf(items)[key] == value <==> exists i: nat :: ItemFor(items, key, value, i)
  {
    if items != [] {
      var n := |items| - 1;
      if items[n].0 == key {
        if i: nat :| ItemFor(items, key, value, i) {
          assert i == n;
        }
        assert items[n].1 == value ==> ItemFor(items, key, value, n);
      } else {
        BindingMeans(items[..n], key, value);
        forall i: nat | i < n
          ensures ItemFor(items, key, value, i) <==> ItemFor(items[..n], key, value, i)
        {
          ItemBefore(items, key, value, i);
        }
      }
    }
  }

  // ---------- nothing is made up ----------

  ghost predicate IsCaptured(relations: seq<Relation>, pred: string, id: string) {
    exists f :: CapturedIn(relations, id, pred, f)
  }

  // The ids of a condition are captured assertions of its predicate.
  ghost predicate AllCaptured(relations: seq<Relation>, pred: string, ids: seq<string>) {
    forall id :: id in ids ==> IsCaptured(relations, pred, id)
  }

  /** Whatever the captured-receipt check passes names captured assertions of the predicate, each once and in order. */
  lemma CapturedIsCaptured(c: Condition, i: nat, caseIndex: nat, witnesses: map<string, Witness>, steps: map<string, Step>,
                           predicates: map<string, string>, relations: seq<Relation>)
    requires c.PredCondition? && ReceiptPlayback.Lists(predicates, relations)
    requires CaptureCondition(c, i, caseIndex, witnesses, steps, predicates).Success?
    ensures var captured := CaptureCondition(c, i, caseIndex, witnesses, steps, predicates).value;
      && captured.pred == Some(c.pred) && captured.index == i && captured.ids != [] && Order.Ascending(captured.ids)
      && AllCaptured(relations, c.pred, captured.ids)
  {
    var captured := CaptureCondition(c, i, caseIndex, witnesses, steps, predicates).value;
    forall id | id in captured.ids
      ensures IsCaptured(relations, c.pred, id)
    {
      assert id in predicates && predicates[id] == c.pred;
      var f :| CapturedIn(relations, id, predicates[id], f);
    }
  }

  // Every cited tuple is the captured one of its id.
  ghost predicate AllCited(relations: seq<Relation>, pred: string, sources: seq<(string, Fact)>) {
    forall n :: 0 <= n < |sources| ==> CapturedIn(relations, sources[n].0, pred, sources[n].1)
  }

  /** Whatever the evidence builder cites is a captured assertion of the predicate, with its own tuple. */
  lemma EvidenceIsCaptured(c: Condition, i: nat, caseIndex: nat, witnesses: map<string, Witness>, steps: map<string, Step>,
                           byId: ById, relations: seq<Relation>)
    requires c.PredCondition? && IndexesById(byId, relations)
    requires AtomEvidence(c, i, caseIndex, witnesses, steps, byId).Success?
    ensures var evidence := AtomEvidence(c, i, caseIndex, witnesses, steps, byId).value;
      && evidence.key in witnesses && |evidence.sources| == |witnesses[evidence.key].ids|
      && (forall n :: 0 <= n < |evidence.sources| ==> evidence.sources[n].0 == witnesses[evidence.key].ids[n])
      && AllCited(relations, c.pred, evidence.sources)
  {
    var evidence := AtomEvidence(c, i, caseIndex, witnesses, steps, byId).value;
    forall n | 0 <= n < |evidence.sources|
      ensures CapturedIn(relations, evidence.sources[n].0, c.pred, evidence.sources[n].1)
    {
      assert witnesses[evidence.key].ids[n] in witnesses[evidence.key].ids;
    }
  }

  ghost predicate HasKindAndStatus(s: Step, kind: string) {
    s.kind == kind && s.status == if kind == "not" then "no_match" else "satisfied"
  }

  /** A step passes either check only with the kind of its condition and the status that goes with it. */
  lemma StepsAreChecked(c: Condition, i: nat, caseIndex: nat, witnesses: map<string, Witness>, steps: map<string, Step>,
                        predicates: map<string, string>, byId: ById)
    requires c.OtherCondition?
    requires CaptureCondition(c, i, caseIndex, witnesses, steps, predicates).Success?
      || AtomEvidence(c, i, caseIndex, witnesses, steps, byId).Success?
    ensures exists key :: key in steps && HasKindAndStatus(steps[key], c.kind)
  {
    var key := ConditionKey(caseIndex, i, c.kind);
    assert key in steps;
  }
}
