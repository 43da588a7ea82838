/** What one batch does to the ledger, what it reports, and what a second run of it does. */
module BatchProperties {
  import opened Wrappers
  import opened Ledgers
  import opened BatchCommit

  function AddCount(ops: seq<PlannedOp>): nat {
    if ops == [] then 0
    else AddCount(ops[..|ops| - 1]) + (if ops[|ops| - 1].AddOp? then 1 else 0)
  }

  // The distinct keys that set operations of the batch have to assert anew.
  function NeededKeys(l: Ledger, targets: set<AssertionId>, ops: seq<PlannedOp>): set<Fact> {
    set op | op in ops && Coalesced(op) && NeedsAssertion(l, targets, op.fact) :: op.fact
  }

  // Every kept assertion stands for its set key, or comes from an add operation.
  ghost predicate Sources(ops: seq<PlannedOp>, p: Pending) {
    forall n :: 0 <= n < |p.assertions| ==>
      || (p.assertions[n] in p.byKey && p.byKey[p.assertions[n]] == n)
      || (exists o :: o in ops && o.AddOp? && o.fact == p.assertions[n])
  }

  // No other operation shares an add operation's index.
  ghost predicate OwnIndexes(ops: seq<PlannedOp>, rs: seq<Resolution>, byKey: map<Fact, nat>)
    requires |rs| == |ops|
  {
    && (forall i, f :: 0 <= i < |ops| && ops[i].AddOp? && f in byKey ==> rs[i] != NewAssertion(byKey[f]))
    && (forall i, j :: 0 <= i < |ops| && 0 <= j < |ops| && i != j && ops[i].AddOp? ==> rs[i] != rs[j])
  }

  lemma NeededKeysAppend(l: Ledger, targets: set<AssertionId>, ops: seq<PlannedOp>, op: PlannedOp)
    ensures NeededKeys(l, targets, ops + [op])
         == NeededKeys(l, targets, ops)
          + (if Coalesced(op) && NeedsAssertion(l, targets, op.fact) then {op.fact} else {})
  {
    assert forall o :: o in ops + [op] <==> o in ops || o == op;
  }

  lemma {:induction false} ResolveOwnership(l: Ledger, s: Schema, guarded: bool, targets: set<AssertionId>,
                                            ops: seq<PlannedOp>)
    requires Resolve(l, s, guarded, targets, ops).Success?
    ensures var p := Resolve(l, s, guarded, targets, ops).value;
      |p.resolutions| == |ops| && OwnIndexes(ops, p.resolutions, p.byKey)
  {
    if ops != [] {
      var before, op := ops[..|ops| - 1], ops[|ops| - 1];
      ResolveOwnership(l, s, guarded, targets, before);
      ResolveOk(l, s, guarded, targets, before);
      StepOwnership(l, s, guarded, targets, before, Resolve(l, s, guarded, targets, before).value, op);
      assert ops == before + [op];
    }
  }

  lemma KeyAdded(byKey: map<Fact, nat>, f: Fact, n: nat)
    ensures byKey[f := n].Keys == byKey.Keys + {f}
    ensures f !in byKey ==> |byKey[f := n]| == |byKey| + 1
  {
    assert |byKey[f := n].Keys| == |byKey[f := n]| && |byKey.Keys| == |byKey|;
  }

  // A set operation whose key needs an assertion that is not kept yet.
  predicate OpensKey(l: Ledger, targets: set<AssertionId>, p: Pending, op: PlannedOp) {
    Coalesced(op) && NeedsAssertion(l, targets, op.fact) && op.fact !in p.byKey
  }

  lemma StepShape(l: Ledger, s: Schema, guarded: bool, targets: set<AssertionId>, p: Pending, op: PlannedOp)
    requires Step(l, s, guarded, targets, p, op).Success?
    ensures var p' := Step(l, s, guarded, targets, p, op).value;
      && p'.byKey == (if OpensKey(l, targets, p, op) then p.byKey[op.fact := |p.assertions|] else p.byKey)
      && |p'.assertions| == |p.assertions| + (if op.AddOp? || OpensKey(l, targets, p, op) then 1 else 0)
  {
  }

  lemma StepKeys(l: Ledger, s: Schema, guarded: bool, targets: set<AssertionId>, p: Pending, op: PlannedOp, p': Pending)
    requires p'.byKey == (if OpensKey(l, targets, p, op) then p.byKey[op.fact := |p.assertions|] else p.byKey)
    requires |p'.assertions| == |p.assertions| + (if op.AddOp? || OpensKey(l, targets, p, op) then 1 else 0)
    ensures p'.byKey.Keys == p.byKey.Keys + (if Coalesced(op) && NeedsAssertion(l, targets, op.fact) then {op.fact} else {})
    ensures |p'.assertions| - |p.assertions| == |p'.byKey| - |p.byKey| + (if op.AddOp? then 1 else 0)
  {
    if OpensKey(l, targets, p, op) {
      KeyAdded(p.byKey, op.fact, |p.assertions|);
    }
  }

  /** The kept assertions: one for each add operation and one for each distinct needed key. */
  lemma {:induction false} ResolveCount(l: Ledger, s: Schema, guarded: bool, targets: set<AssertionId>, ops: seq<PlannedOp>)
    requires Resolve(l, s, guarded, targets, ops).Success?
    ensures var p := Resolve(l, s, guarded, targets, ops).value;
      && p.byKey.Keys == NeededKeys(l, targets, ops)
      && |p.assertions| == AddCount(ops) + |p.byKey|
  {
    if ops != [] {
      var before, op := ops[..|ops| - 1], ops[|ops| - 1];
      ResolveCount(l, s, guarded, targets, before);
      assert ops == before + [op];
      NeededKeysAppend(l, targets, before, op);
      var p := Resolve(l, s, guarded, targets, before).value;
      StepShape(l, s, guarded, targets, p, op);
      StepKeys(l, s, guarded, targets, p, op, Step(l, s, guarded, targets, p, op).value);
    }
  }

  lemma {:induction false} ResolveSources(l: Ledger, s: Schema, guarded: bool, targets: set<AssertionId>, ops: seq<PlannedOp>)
    requires Resolve(l, s, guarded, targets, ops).Success?
    ensures Sources(ops, Resolve(l, s, guarded, targets, ops).value)
  {
    if ops != [] {
      var before, op := ops[..|ops| - 1], ops[|ops| - 1];
      ResolveSources(l, s, guarded, targets, before);
      assert ops == before + [op];
      StepSources(l, s, guarded, targets, before, Resolve(l, s, guarded, targets, before).value, op);
    }
  }

  lemma StepSources(l: Ledger, s: Schema, guarded: bool, targets: set<AssertionId>,
                    ops: seq<PlannedOp>, p: Pending, op: PlannedOp)
    requires Sources(ops, p)
    requires Step(l, s, guarded, targets, p, op).Success?
    ensures Sources(ops + [op], Step(l, s, guarded, targets, p, op).value)
  {
    var p' := Step(l, s, guarded, targets, p, op).value;
    forall n | 0 <= n < |p'.assertions| && !(p'.assertions[n] in p'.byKey && p'.byKey[p'.assertions[n]] == n)
      ensures exists o :: o in ops + [op] && o.AddOp? && o.fact == p'.assertions[n]
    {
      if n < |p.assertions| {
        var o :| o in ops && o.AddOp? && o.fact == p.assertions[n];
        assert o in ops + [op];
      } else {
        assert op in ops + [op];
      }
    }
  }

  lemma StepOwnership(l: Ledger, s: Schema, guarded: bool, targets: set<AssertionId>,
                      ops: seq<PlannedOp>, p: Pending, op: PlannedOp)
    requires PendingOk(l, targets, ops, p)
    requires OwnIndexes(ops, p.resolutions, p.byKey)
    requires Step(l, s, guarded, targets, p, op).Success?
    ensures var p' := Step(l, s, guarded, targets, p, op).value;
      |p'.resolutions| == |ops + [op]| && OwnIndexes(ops + [op], p'.resolutions, p'.byKey)
  {
    var p' := Step(l, s, guarded, targets, p, op).value;
    ResolutionsInRange(l, targets, ops, p);
    forall i | 0 <= i < |ops| && ops[i].AddOp?
      ensures p.resolutions[i].NewAssertion?
    {
      assert ResolvedAs(l, targets, p, ops[i], p.resolutions[i]);
    }
    AppendOwnership(ops, p.resolutions, p.byKey, |p.assertions|, op, p'.resolutions[|ops|], p'.byKey);
    assert p'.resolutions == p.resolutions + [p'.resolutions[|ops|]];
  }

  lemma AppendOwnership(ops: seq<PlannedOp>, rs: seq<Resolution>, byKey: map<Fact, nat>, bound: nat,
                        op: PlannedOp, r: Resolution, byKey': map<Fact, nat>)
    requires |rs| == |ops| && OwnIndexes(ops, rs, byKey)
    requires forall r :: r in rs ==> r.NewAssertion? ==> r.index < bound
    requires forall f :: f in byKey ==> byKey[f] < bound
    requires forall i :: 0 <= i < |ops| && ops[i].AddOp? ==> rs[i].NewAssertion?
    requires
      || (byKey' == byKey && r == NewAssertion(bound))
      || (byKey' == byKey && !op.AddOp? && !r.NewAssertion?)
      || (byKey' == byKey && !op.AddOp? && exists f :: f in byKey && r == NewAssertion(byKey[f]))
      || (!op.AddOp? && r == NewAssertion(bound)
          && forall f :: f in byKey' ==> byKey'[f] == bound || (f in byKey && byKey'[f] == byKey[f]))
    ensures OwnIndexes(ops + [op], rs + [r], byKey')
  {
    var ops', rs' := ops + [op], rs + [r];
    forall i, j | 0 <= i < |ops'| && 0 <= j < |ops'| && i != j && ops'[i].AddOp?
      ensures rs'[i] != rs'[j]
    {
      if i < |ops| { assert rs[i] in rs; }
      if j < |ops| { assert rs[j] in rs; }
    }
    forall i, f | 0 <= i < |ops'| && ops'[i].AddOp? && f in byKey'
      ensures rs'[i] != NewAssertion(byKey'[f])
    {
      if i < |ops| { assert rs[i] in rs; }
    }
  }

  ghost function Kept(l: Ledger, s: Schema, guarded: bool, ops: seq<PlannedOp>): (p: Pending)
    requires CommitBatch(l, s, guarded, ops).Success?
    ensures PendingOk(l, Targets(ops), ops, p)
    ensures Sources(ops, p) && OwnIndexes(ops, p.resolutions, p.byKey)
    ensures p.byKey.Keys == NeededKeys(l, Targets(ops), ops)
    ensures |p.assertions| == AddCount(ops) + |p.byKey|
  {
    ResolveOk(l, s, guarded, Targets(ops), ops);
    ResolveSources(l, s, guarded, Targets(ops), ops);
    ResolveOwnership(l, s, guarded, Targets(ops), ops);
    ResolveCount(l, s, guarded, Targets(ops), ops);
    Resolve(l, s, guarded, Targets(ops), ops).value
  }

  // The pieces of a successful batch, in one place.
  lemma BatchPieces(l: Ledger, s: Schema, guarded: bool, ops: seq<PlannedOp>)
    requires Valid(l) && CommitBatch(l, s, guarded, ops).Success?
    ensures var p, o := Kept(l, s, guarded, ops), CommitBatch(l, s, guarded, ops).value;
      && Valid(o.ledger)
      && o.ledger.claims == l.claims + NewClaims(l.nextId, p.assertions)
      && (forall t :: t in o.ledger.revoker <==> t in l.revoker || t in p.revocations)
      && (forall id, f :: Active(o.ledger, id, f) <==>
            (Active(l, id, f) && id !in p.revocations) || Claim(id, f) in NewClaims(l.nextId, p.assertions))
  {
    var p, o := Kept(l, s, guarded, ops), CommitBatch(l, s, guarded, ops).value;
    if p.assertions == [] && p.revocations == [] {
      assert o.ledger == l;
      assert NewClaims(l.nextId, p.assertions) == [];
    } else {
      CommitKeepsValid(l, p.assertions, p.revocations);
      CommitActive(l, p.assertions, p.revocations);
    }
  }

  lemma KeptRevocations(l: Ledger, s: Schema, guarded: bool, ops: seq<PlannedOp>, t: AssertionId)
    requires CommitBatch(l, s, guarded, ops).Success?
    ensures t in Kept(l, s, guarded, ops).revocations <==> t in Targets(ops) && t !in l.revoker
  {
    var p := Kept(l, s, guarded, ops);
    if t in p.byTarget {
      assert p.revocations[p.byTarget[t]] == t;
    }
  }

  ghost predicate Asked(ops: seq<PlannedOp>, f: Fact) {
    exists op :: op in ops && !op.RetractOp? && op.fact == f
  }

  // A new claim was asked for by some operation.
  lemma NewClaimAsked(l: Ledger, s: Schema, guarded: bool, ops: seq<PlannedOp>, c: Claim)
    requires Valid(l) && CommitBatch(l, s, guarded, ops).Success?
    requires c in CommitBatch(l, s, guarded, ops).value.ledger.claims[|l.claims|..]
    ensures l.nextId <= c.id
    ensures Asked(ops, c.fact)
  {
    var p := Kept(l, s, guarded, ops);
    BatchPieces(l, s, guarded, ops);
    var n := AddedClaim(l.claims, CommitBatch(l, s, guarded, ops).value.ledger.claims, l.nextId, p.assertions, c);
    KeptIsAsked(l, Targets(ops), ops, p, n);
  }

  lemma AddedClaim(before: seq<Claim>, after: seq<Claim>, start: nat, facts: seq<Fact>, c: Claim) returns (n: nat)
    requires after == before + NewClaims(start, facts) && c in after[|before|..]
    ensures n < |facts| && c == Claim(start + n, facts[n])
  {
    assert after[|before|..] == NewClaims(start, facts);
    n :| 0 <= n < |facts| && NewClaims(start, facts)[n] == c;
  }

  lemma KeptIsAsked(l: Ledger, targets: set<AssertionId>, ops: seq<PlannedOp>, p: Pending, n: nat)
    requires Sources(ops, p) && p.byKey.Keys == NeededKeys(l, targets, ops) && n < |p.assertions|
    ensures Asked(ops, p.assertions[n])
  {
    if p.assertions[n] in p.byKey {
      assert p.assertions[n] in NeededKeys(l, targets, ops);
    }
  }

  /** The active set after a batch, fact by fact, and what the ledger gained. */
  lemma BatchActive(l: Ledger, s: Schema, guarded: bool, ops: seq<PlannedOp>)
    requires Valid(l) && CommitBatch(l, s, guarded, ops).Success?
    ensures var l' := CommitBatch(l, s, guarded, ops).value.ledger;
      && Valid(l')
      && l.claims <= l'.claims
      && |l'.claims| - |l.claims| == AddCount(ops) + |NeededKeys(l, Targets(ops), ops)|
      && (forall t :: t in l'.revoker <==> t in l.revoker || t in Targets(ops))
      && (forall c :: c in l'.claims[|l.claims|..] ==> l.nextId <= c.id && Asked(ops, c.fact))
      && (forall id, f :: Active(l', id, f) <==>
            (Active(l, id, f) && id !in Targets(ops)) || Claim(id, f) in l'.claims[|l.claims|..])
  {
    BatchPieces(l, s, guarded, ops);
    var p := Kept(l, s, guarded, ops);
    var l' := CommitBatch(l, s, guarded, ops).value.ledger;
    assert l'.claims[|l.claims|..] == NewClaims(l.nextId, p.assertions);
    forall t ensures t in p.revocations <==> t in Targets(ops) && t !in l.revoker {
      KeptRevocations(l, s, guarded, ops, t);
    }
    forall c | c in l'.claims[|l.claims|..]
      ensures l.nextId <= c.id && Asked(ops, c.fact)
    {
      NewClaimAsked(l, s, guarded, ops, c);
    }
  }

  lemma RevokersRecorded(l: Ledger, assertions: seq<Fact>, revocations: seq<AssertionId>, c: CommitResult)
    requires Commit(l, assertions, revocations) == Success(c)
    ensures c.assertionIds == NewIds(l.nextId, |assertions|)
    ensures c.revokerIds == NewIds(l.nextId + |assertions|, |revocations|)
    ensures forall n :: 0 <= n < |revocations| ==>
      revocations[n] in c.ledger.revoker && c.ledger.revoker[revocations[n]] == l.nextId + |assertions| + n
  {
    var revoked := map i | 0 <= i < |revocations| :: revocations[i] := l.nextId + |assertions| + i;
    forall n | 0 <= n < |revocations|
      ensures revocations[n] in revoked && revoked[revocations[n]] == l.nextId + |assertions| + n
    {
      assert Distinct(revocations);
    }
  }

  // The commit behind a batch; an empty one if nothing was kept.
  lemma BatchCommitted(l: Ledger, s: Schema, guarded: bool, ops: seq<PlannedOp>) returns (c: CommitResult)
    requires CommitBatch(l, s, guarded, ops).Success?
    ensures var p, o := Kept(l, s, guarded, ops), CommitBatch(l, s, guarded, ops).value;
      && c.assertionIds == NewIds(l.nextId, |p.assertions|)
      && c.revokerIds == NewIds(l.nextId + |p.assertions|, |p.revocations|)
      && c.ledger == o.ledger
      && (forall r :: r in p.resolutions ==> r.NewAssertion? ==> r.index < |c.assertionIds|)
      && (forall r :: r in p.resolutions ==> r.NewRevocation? ==> r.index < |c.revokerIds|)
      && o.ids == ReportedIds(p.resolutions, c)
      && forall n :: 0 <= n < |p.revocations| ==>
           p.revocations[n] in o.ledger.revoker && o.ledger.revoker[p.revocations[n]] == l.nextId + |p.assertions| + n
  {
    var p := Kept(l, s, guarded, ops);
    ResolutionsInRange(l, Targets(ops), ops, p);
    if p.assertions == [] && p.revocations == [] {
      c := CommitResult(l, [], []);
    } else {
      c := Commit(l, p.assertions, p.revocations).value;
      RevokersRecorded(l, p.assertions, p.revocations, c);
    }
  }

  lemma ReportedAt(l: Ledger, s: Schema, guarded: bool, ops: seq<PlannedOp>, i: nat)
    requires Valid(l) && CommitBatch(l, s, guarded, ops).Success? && i < |ops|
    ensures var p, o := Kept(l, s, guarded, ops), CommitBatch(l, s, guarded, ops).value;
      && ResolvedAs(l, Targets(ops), p, ops[i], p.resolutions[i])
      && match p.resolutions[i]
         case Existing(id) => o.ids[i] == id
         case NewAssertion(n) => n < |p.assertions| && o.ids[i] == l.nextId + n
         case NewRevocation(n) =>
           && n < |p.revocations| && o.ids[i] == l.nextId + |p.assertions| + n
           && p.revocations[n] in o.ledger.revoker && o.ledger.revoker[p.revocations[n]] == o.ids[i]
  {
    var p := Kept(l, s, guarded, ops);
    var c := BatchCommitted(l, s, guarded, ops);
    assert p.resolutions[i] in p.resolutions;
    assert ResolvedAs(l, Targets(ops), p, ops[i], p.resolutions[i]);
  }

  lemma RetractReports(l: Ledger, s: Schema, guarded: bool, ops: seq<PlannedOp>, i: nat)
    requires Valid(l) && CommitBatch(l, s, guarded, ops).Success? && i < |ops| && ops[i].RetractOp?
    ensures var o := CommitBatch(l, s, guarded, ops).value;
      ops[i].target in o.ledger.revoker && o.ids[i] == o.ledger.revoker[ops[i].target]
  {
    ReportedAt(l, s, guarded, ops, i);
    RevokerKept(l, s, guarded, ops, ops[i].target);
  }

  lemma KeptIsActive(l: Ledger, s: Schema, guarded: bool, ops: seq<PlannedOp>, n: nat)
    requires Valid(l) && CommitBatch(l, s, guarded, ops).Success? && n < |Kept(l, s, guarded, ops).assertions|
    ensures Active(CommitBatch(l, s, guarded, ops).value.ledger, l.nextId + n, Kept(l, s, guarded, ops).assertions[n])
  {
    var p := Kept(l, s, guarded, ops);
    CommitActivates(l, p.assertions, p.revocations, n);
  }

  lemma ResolvedFact(l: Ledger, targets: set<AssertionId>, ops: seq<PlannedOp>, p: Pending, i: nat)
    requires PendingOk(l, targets, ops, p) && i < |ops| && p.resolutions[i].NewAssertion?
    ensures !ops[i].RetractOp? && p.resolutions[i].index < |p.assertions| && p.assertions[p.resolutions[i].index] == ops[i].fact
  {
    assert ResolvedAs(l, targets, p, ops[i], p.resolutions[i]);
  }

  // A set or add operation that was given a new assertion reports it.
  lemma NewAssertionReports(l: Ledger, s: Schema, guarded: bool, ops: seq<PlannedOp>, i: nat)
    requires Valid(l) && CommitBatch(l, s, guarded, ops).Success? && i < |ops| && !ops[i].RetractOp?
    requires Kept(l, s, guarded, ops).resolutions[i].NewAssertion?
    ensures var o := CommitBatch(l, s, guarded, ops).value;
      l.nextId <= o.ids[i] && Active(o.ledger, o.ids[i], ops[i].fact)
  {
    var p := Kept(l, s, guarded, ops);
    ReportedAt(l, s, guarded, ops, i);
    ResolvedFact(l, Targets(ops), ops, p, i);
    KeptIsActive(l, s, guarded, ops, p.resolutions[i].index);
  }

  lemma ExistingReports(l: Ledger, s: Schema, guarded: bool, ops: seq<PlannedOp>, i: nat)
    requires Valid(l) && CommitBatch(l, s, guarded, ops).Success? && i < |ops| && !ops[i].RetractOp?
    requires Kept(l, s, guarded, ops).resolutions[i].Existing?
    ensures var o := CommitBatch(l, s, guarded, ops).value;
      Active(o.ledger, o.ids[i], ops[i].fact)
  {
    var p := Kept(l, s, guarded, ops);
    var id := p.resolutions[i].id;
    ReportedAt(l, s, guarded, ops, i);
    BatchPieces(l, s, guarded, ops);
    KeptRevocations(l, s, guarded, ops, id);
    FoundActive(l, ops[i].fact);
  }

  /** What the id reported for each operation means. */
  lemma BatchReports(l: Ledger, s: Schema, guarded: bool, ops: seq<PlannedOp>, i: nat)
    requires Valid(l) && CommitBatch(l, s, guarded, ops).Success? && i < |ops|
    ensures var o := CommitBatch(l, s, guarded, ops).value;
      match ops[i]
      case RetractOp(target, _) => target in o.ledger.revoker && o.ids[i] == o.ledger.revoker[target]
      case AddOp(fact, _) =>
        && Active(o.ledger, o.ids[i], fact)
        && l.nextId <= o.ids[i]
        && (forall j :: 0 <= j < |ops| && j != i ==> o.ids[j] != o.ids[i])
      case _ => Active(o.ledger, o.ids[i], ops[i].fact)
  {
    ReportedAt(l, s, guarded, ops, i);
    if ops[i].RetractOp? {
      RetractReports(l, s, guarded, ops, i);
    } else if Kept(l, s, guarded, ops).resolutions[i].Existing? {
      ExistingReports(l, s, guarded, ops, i);
    } else {
      NewAssertionReports(l, s, guarded, ops, i);
      if ops[i].AddOp? {
        forall j | 0 <= j < |ops| && j != i
          ensures CommitBatch(l, s, guarded, ops).value.ids[j] != CommitBatch(l, s, guarded, ops).value.ids[i]
        {
          OtherIdDiffers(l, s, guarded, ops, i, j);
        }
      }
    }
  }

  /** A recorded revoker is never replaced. */
  lemma RevokerKept(l: Ledger, s: Schema, guarded: bool, ops: seq<PlannedOp>, t: AssertionId)
    requires CommitBatch(l, s, guarded, ops).Success?
    ensures t in l.revoker ==>
      t in CommitBatch(l, s, guarded, ops).value.ledger.revoker
      && CommitBatch(l, s, guarded, ops).value.ledger.revoker[t] == l.revoker[t]
  {
    KeptRevocations(l, s, guarded, ops, t);
  }

  lemma OtherIdDiffers(l: Ledger, s: Schema, guarded: bool, ops: seq<PlannedOp>, i: nat, j: nat)
    requires Valid(l) && CommitBatch(l, s, guarded, ops).Success?
    requires i < |ops| && j < |ops| && j != i && ops[i].AddOp?
    ensures CommitBatch(l, s, guarded, ops).value.ids[j] != CommitBatch(l, s, guarded, ops).value.ids[i]
  {
    var p := Kept(l, s, guarded, ops);
    ReportedAt(l, s, guarded, ops, i);
    ReportedAt(l, s, guarded, ops, j);
    if p.resolutions[j].Existing? {
      ExistingIsOld(l, Targets(ops), p, ops[j], p.resolutions[j]);
    } else if p.resolutions[j].NewAssertion? {
      assert p.resolutions[i] != p.resolutions[j];
    }
  }

  lemma ExistingIsOld(l: Ledger, targets: set<AssertionId>, p: Pending, op: PlannedOp, r: Resolution)
    requires Valid(l) && ResolvedAs(l, targets, p, op, r) && r.Existing?
    ensures r.id < l.nextId
  {
    if !op.RetractOp? {
      FoundActive(l, op.fact);
      assert Claim(r.id, op.fact) in l.claims;
    }
  }

  ghost predicate AtMostOneActive(l: Ledger, f: Fact) {
    forall a, b :: Active(l, a, f) && Active(l, b, f) ==> a == b
  }

  /** With a unique active assertion per key, "needed" means that no active assertion survives. */
  lemma NeededMeansNoSurvivor(l: Ledger, targets: set<AssertionId>, f: Fact)
    requires AtMostOneActive(l, f)
    ensures NeedsAssertion(l, targets, f) <==> !exists id :: Active(l, id, f) && id !in targets
  {
    FoundActive(l, f);
    var existing := FindActiveAssertion(l, f);
    assert existing.Some? ==> Active(l, existing.value, f);
  }

  /** A batch that does not add to a key keeps its active assertion unique. */
  lemma BatchKeepsUnique(l: Ledger, s: Schema, guarded: bool, ops: seq<PlannedOp>, f: Fact)
    requires Valid(l) && CommitBatch(l, s, guarded, ops).Success?
    requires AtMostOneActive(l, f)
    requires forall op :: op in ops && op.AddOp? ==> op.fact != f
    ensures AtMostOneActive(CommitBatch(l, s, guarded, ops).value.ledger, f)
  {
    var p := Kept(l, s, guarded, ops);
    var l' := CommitBatch(l, s, guarded, ops).value.ledger;
    BatchActive(l, s, guarded, ops);
    BatchPieces(l, s, guarded, ops);
    assert l'.claims[|l.claims|..] == NewClaims(l.nextId, p.assertions);
    forall a, b | Active(l', a, f) && Active(l', b, f)
      ensures a == b
    {
      if Claim(a, f) in l'.claims[|l.claims|..] {
        UniqueNewClaim(l, Targets(ops), ops, p, f, a, b);
      } else if Claim(b, f) in l'.claims[|l.claims|..] {
        UniqueNewClaim(l, Targets(ops), ops, p, f, b, a);
      }
    }
  }

  lemma UniqueNewClaim(l: Ledger, targets: set<AssertionId>, ops: seq<PlannedOp>, p: Pending,
                       f: Fact, a: AssertionId, b: AssertionId)
    requires AtMostOneActive(l, f)
    requires Sources(ops, p)
    requires forall op :: op in ops && op.AddOp? ==> op.fact != f
    requires f in p.byKey ==> NeedsAssertion(l, targets, f)
    requires Claim(a, f) in NewClaims(l.nextId, p.assertions)
    requires (Active(l, b, f) && b !in targets) || Claim(b, f) in NewClaims(l.nextId, p.assertions)
    ensures a == b
  {
    var added := NewClaims(l.nextId, p.assertions);
    var n :| 0 <= n < |added| && added[n] == Claim(a, f);
    assert p.assertions[n] == f && p.byKey[f] == n;
    NeededMeansNoSurvivor(l, targets, f);
    var m :| 0 <= m < |added| && added[m] == Claim(b, f);
    assert p.assertions[m] == f;
  }
}
