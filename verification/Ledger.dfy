/**
 The append-only ledger that entity writes go through, with the one operation that changes it:
 an atomic commit of assertions and revocations.
 */
module Ledgers {
  import opened Wrappers

  // Server-generated ids come from a counter here; what matters is that a generated id is new.
  type AssertionId = nat

  // An entity reference is determined by its type and its resolved identity values.
  datatype EntityRef = EntityRef(entityType: string, identity: map<string, string>)

  // A field holds a normalized scalar or a reference to an entity.
  datatype FieldValue = Scalar(text: string) | Reference(ref: EntityRef)

  // Exactly the material an ingest key digests. The digest is taken to be injective, so a
  // fact stands for its own key; `meta` is the idempotency part of the operation metadata.
  datatype Fact = Fact(pred: string, entity: EntityRef, value: FieldValue, meta: string)

  datatype Claim = Claim(id: AssertionId, fact: Fact)

  // Claims in insertion order; `revoker` maps a revoked claim to the id that revoked it.
  datatype Ledger = Ledger(claims: seq<Claim>, revoker: map<AssertionId, AssertionId>, nextId: AssertionId)

  datatype CommitResult = CommitResult(
    ledger: Ledger,
    assertionIds: seq<AssertionId>,
    revokerIds: seq<AssertionId>)

  predicate Known(l: Ledger, id: AssertionId) {
    exists c :: c in l.claims && c.id == id
  }

  ghost predicate Valid(l: Ledger) {
    && (forall i, j :: 0 <= i < j < |l.claims| ==> l.claims[i].id != l.claims[j].id)
    && (forall c :: c in l.claims ==> c.id < l.nextId)
    && (forall t :: t in l.revoker ==> Known(l, t) && l.revoker[t] < l.nextId)
    && (forall t :: t in l.revoker ==> !Known(l, l.revoker[t]))
  }

  ghost predicate Active(l: Ledger, id: AssertionId, f: Fact) {
    Claim(id, f) in l.claims && id !in l.revoker
  }

  /** The first claim, in insertion order, that carries the key and is not revoked. */
  function FindActive(claims: seq<Claim>, revoker: map<AssertionId, AssertionId>, f: Fact): Option<AssertionId> {
    if claims == [] then None
    else if claims[0].fact == f && claims[0].id !in revoker then Some(claims[0].id)
    else FindActive(claims[1..], revoker, f)
  }

  /** What is found is active, and nothing is found only if nothing active carries the key. */
  lemma {:induction false} FindActiveIs(claims: seq<Claim>, revoker: map<AssertionId, AssertionId>, f: Fact)
    ensures var r := FindActive(claims, revoker, f);
      && (r.Some? ==> Claim(r.value, f) in claims && r.value !in revoker)
      && (r.None? ==> forall c :: c in claims && c.fact == f ==> c.id in revoker)
  {
    if claims != [] {
      FindActiveIs(claims[1..], revoker, f);
      assert forall c :: c in claims <==> c == claims[0] || c in claims[1..];
    }
  }

  function FindActiveAssertion(l: Ledger, f: Fact): Option<AssertionId> {
    FindActive(l.claims, l.revoker, f)
  }

  lemma FoundActive(l: Ledger, f: Fact)
    ensures var r := FindActiveAssertion(l, f);
      && (r.Some? ==> Active(l, r.value, f))
      && (r.None? ==> forall id :: !Active(l, id, f))
  {
    FindActiveIs(l.claims, l.revoker, f);
  }

  predicate IsSystemPredicate(pred: string) {
    "__system__." <= pred
  }

  predicate Distinct(ids: seq<AssertionId>) {
    forall i, j :: 0 <= i < j < |ids| ==> ids[i] != ids[j]
  }

  predicate Revocable(l: Ledger, ids: seq<AssertionId>) {
    Distinct(ids) && forall t :: t in ids ==> Known(l, t) && t !in l.revoker
  }

  function NewClaims(start: AssertionId, facts: seq<Fact>): seq<Claim> {
    seq(|facts|, i requires 0 <= i < |facts| => Claim(start + i, facts[i]))
  }

  function NewIds(start: AssertionId, count: nat): seq<AssertionId> {
    seq(count, i requires 0 <= i < count => start + i)
  }

  /** One atomic change set. Nothing happens unless all of it is accepted. */
  function Commit(l: Ledger, assertions: seq<Fact>, revocations: seq<AssertionId>): Result<CommitResult, string> {
    if assertions == [] && revocations == [] then
      Failure("EMPTY_COMMIT")
    else if exists f :: f in assertions && IsSystemPredicate(f.pred) then
      Failure("RESERVED_NAMESPACE")
    else if !Revocable(l, revocations) then
      Failure("INVALID_REVOCATION")
    else
      var firstRevoker := l.nextId + |assertions|;
      var revoked := map i | 0 <= i < |revocations| :: revocations[i] := firstRevoker + i;
      Success(CommitResult(
        Ledger(l.claims + NewClaims(l.nextId, assertions), l.revoker + revoked, firstRevoker + |revocations|),
        NewIds(l.nextId, |assertions|),
        NewIds(firstRevoker, |revocations|)))
  }

  lemma {:induction false} FindActiveAppend(a: seq<Claim>, b: seq<Claim>, revoker: map<AssertionId, AssertionId>, f: Fact)
    ensures FindActive(a + b, revoker, f)
         == if FindActive(a, revoker, f).Some? then FindActive(a, revoker, f) else FindActive(b, revoker, f)
  {
    if a == [] {
      assert a + b == b;
    } else {
      assert (a + b)[1..] == a[1..] + b;
      FindActiveAppend(a[1..], b, revoker, f);
    }
  }

  /** Revoking ids other than the one found does not change what is found. */
  lemma {:induction false} FindActiveStable(claims: seq<Claim>, revoker: map<AssertionId, AssertionId>,
                                            more: map<AssertionId, AssertionId>, f: Fact)
    requires revoker.Keys <= more.Keys
    requires FindActive(claims, revoker, f).Some? ==> FindActive(claims, revoker, f).value !in more
    ensures FindActive(claims, more, f) == FindActive(claims, revoker, f)
  {
    if claims == [] {
    } else if claims[0].fact == f && claims[0].id !in revoker {
    } else {
      FindActiveStable(claims[1..], revoker, more, f);
    }
  }

  lemma NewClaimsUnique(claims: seq<Claim>, start: AssertionId, facts: seq<Fact>)
    requires forall i, j :: 0 <= i < j < |claims| ==> claims[i].id != claims[j].id
    requires forall i :: 0 <= i < |claims| ==> claims[i].id < start
    ensures var all := claims + NewClaims(start, facts);
      && (forall i, j :: 0 <= i < j < |all| ==> all[i].id != all[j].id)
      && (forall i :: 0 <= i < |all| ==> all[i].id < start + |facts|)
  {
  }

  // A commit records a revoker outside the claims for each revocation, and keeps the earlier ones.
  lemma RevokersOutside(l: Ledger, assertions: seq<Fact>, revocations: seq<AssertionId>, l': Ledger, t: AssertionId)
    requires Valid(l) && Commit(l, assertions, revocations).Success? && l' == Commit(l, assertions, revocations).value.ledger
    requires t in l'.revoker
    ensures Known(l, t) && l'.revoker[t] < l'.nextId
    ensures t in l.revoker && t !in revocations ==> l'.revoker[t] == l.revoker[t]
    ensures t in revocations ==> l.nextId + |assertions| <= l'.revoker[t]
    ensures t in l.revoker || t in revocations
  {
    if t !in revocations {
      assert t in l.revoker;
    }
  }

  lemma CommitKeepsValid(l: Ledger, assertions: seq<Fact>, revocations: seq<AssertionId>)
    requires Valid(l)
    requires Commit(l, assertions, revocations).Success?
    ensures Valid(Commit(l, assertions, revocations).value.ledger)
  {
    var l' := Commit(l, assertions, revocations).value.ledger;
    var added := NewClaims(l.nextId, assertions);
    assert forall i :: 0 <= i < |l.claims| ==> l.claims[i] in l.claims;
    NewClaimsUnique(l.claims, l.nextId, assertions);
    forall t | t in l'.revoker
      ensures Known(l', t) && l'.revoker[t] < l'.nextId && !Known(l', l'.revoker[t])
    {
      RevokersOutside(l, assertions, revocations, l', t);
      KnownAfter(l.claims, added, l', t, l'.revoker[t], l.nextId);
      if t !in revocations {
        assert !Known(l, l.revoker[t]) && l.revoker[t] < l.nextId;
      }
    }
  }

  lemma KnownAfter(before: seq<Claim>, added: seq<Claim>, l': Ledger, t: AssertionId, r: AssertionId, start: AssertionId)
    requires l'.claims == before + added
    ensures (exists c :: c in before && c.id == t) ==> Known(l', t)
    ensures Known(l', r) ==> (exists c :: c in before && c.id == r) || (exists c :: c in added && c.id == r)
  {
    assert forall c :: c in l'.claims <==> c in before || c in added;
  }

  /** What a commit does to the active claims, fact by fact. */
  lemma CommitActive(l: Ledger, assertions: seq<Fact>, revocations: seq<AssertionId>)
    requires Valid(l)
    requires Commit(l, assertions, revocations).Success?
    ensures var l' := Commit(l, assertions, revocations).value.ledger;
      && l'.claims == l.claims + NewClaims(l.nextId, assertions)
      && (forall t :: t in l'.revoker <==> t in l.revoker || t in revocations)
      && (forall id, f :: Active(l', id, f) <==>
            || (Active(l, id, f) && id !in revocations)
            || Claim(id, f) in NewClaims(l.nextId, assertions))
  {
    var l' := Commit(l, assertions, revocations).value.ledger;
    var added := NewClaims(l.nextId, assertions);
    forall t
      ensures t in l'.revoker <==> t in l.revoker || t in revocations
    {
      if t in revocations {
        var i :| 0 <= i < |revocations| && revocations[i] == t;
        assert t in l'.revoker;
      }
    }
    forall t | t in revocations || t in l.revoker
      ensures t < l.nextId
    {
      assert Known(l, t);
    }
    assert forall c :: c in added ==> l.nextId <= c.id;
  }

  /** A new assertion is active as soon as it is committed. */
  lemma CommitActivates(l: Ledger, assertions: seq<Fact>, revocations: seq<AssertionId>, n: nat)
    requires Valid(l) && Commit(l, assertions, revocations).Success? && n < |assertions|
    ensures Active(Commit(l, assertions, revocations).value.ledger, l.nextId + n, assertions[n])
  {
    var l' := Commit(l, assertions, revocations).value.ledger;
    var added := NewClaims(l.nextId, assertions);
    assert added[n] == Claim(l.nextId + n, assertions[n]);
    assert l'.claims[|l.claims| + n] == added[n];
    forall t | t in l'.revoker
      ensures t < l.nextId
    {
      RevokersOutside(l, assertions, revocations, l', t);
    }
  }
}
