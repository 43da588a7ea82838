/**
 Native diagnosis of a requested binding: match it against the evaluated bindings, and if none
 matches, locate the atom at which a frontier seeded with the request dies out.
 */
module Diagnose {
  import opened Wrappers
  import opened WhereEval
  import opened SeededBranches
  import opened SeedingLimits
  import opened EarlyNegation
  import opened Frontiers
  import opened WinningCases

  datatype Located = Located(caseIndex: nat, atomIndex: nat, attempted: Env)

  datatype Diagnosis =
    | InvalidRequest
    | Passed(matchedCount: nat, caseIndex: nat, matched: Env)
    | NoCandidate
    | AtomLocalized(at: Located)

  // The order of sort keys on environments, or of matching bindings; any total order will do.
  ghost predicate TotalOrder(leq: (Env, Env) -> bool) {
    && (forall a, b :: leq(a, b) || leq(b, a))
    && (forall a, b :: leq(a, b) && leq(b, a) ==> a == b)
    && (forall a, b, c :: leq(a, b) && leq(b, c) ==> leq(a, c))
  }

  ghost predicate IsLeast(e: Env, envs: seq<Env>, leq: (Env, Env) -> bool) {
    e in envs && forall x :: x in envs ==> leq(e, x)
  }

  // A branch that mentions none of the requested variables says nothing about the request.
  predicate Considered(branch: seq<Atom>, requested: Env) {
    requested == map[] || BranchVars(branch) * requested.Keys != {}
  }

  // The frontier before atom k, without any deduplication.
  function FrontierBefore(view: View, branch: seq<Atom>, requested: Env, k: nat): Envs
    requires k <= |branch|
  {
    EvalBranch(view, [requested], branch[..k])
  }

  ghost predicate FailsAt(view: View, branch: seq<Atom>, requested: Env, k: nat) {
    && k < |branch|
    && FrontierBefore(view, branch, requested, k).Success?
    && FrontierBefore(view, branch, requested, k).value != []
    && FrontierBefore(view, branch, requested, k + 1) == Success([])
  }

  ghost predicate RunsThrough(view: View, branch: seq<Atom>, requested: Env) {
    EvalBranch(view, [requested], branch).Success? && EvalBranch(view, [requested], branch).value != []
  }

  // ---------- frontiers ----------

  lemma NextFrontier(view: View, branch: seq<Atom>, requested: Env, k: nat)
    requires k < |branch|
    ensures FrontierBefore(view, branch, requested, k + 1)
         == var f := FrontierBefore(view, branch, requested, k);
            if f.Failure? then f else ExtendFrontier(view, f.value, branch[k])
  {
    assert branch[..k + 1] == branch[..k] + [branch[k]];
    EvalBranchSnoc(view, [requested], branch[..k], branch[k]);
  }

  lemma {:induction false} FrontierStays(view: View, branch: seq<Atom>, requested: Env, k: nat)
    requires k <= |branch|
    requires FrontierBefore(view, branch, requested, k).Failure? || FrontierBefore(view, branch, requested, k).value == []
    ensures EvalBranch(view, [requested], branch) == FrontierBefore(view, branch, requested, k)
    decreases |branch| - k
  {
    if k == |branch| {
      assert branch[..k] == branch;
    } else {
      NextFrontier(view, branch, requested, k);
      FrontierStays(view, branch, requested, k + 1);
    }
  }

  lemma EarlierFrontierLives(view: View, branch: seq<Atom>, requested: Env, j: nat, k: nat)
    requires j <= k <= |branch|
    requires FrontierBefore(view, branch, requested, k).Success? && FrontierBefore(view, branch, requested, k).value != []
    ensures FrontierBefore(view, branch, requested, j).Success? && FrontierBefore(view, branch, requested, j).value != []
    decreases k - j
  {
    if j < k {
      NextFrontier(view, branch, requested, k - 1);
      EarlierFrontierLives(view, branch, requested, j, k - 1);
    }
  }

  /** A branch fails at one atom at most, and not at all if it runs through. */
  lemma FailsOnce(view: View, branch: seq<Atom>, requested: Env, j: nat, k: nat)
    requires FailsAt(view, branch, requested, j)
    ensures FailsAt(view, branch, requested, k) ==> j == k
    ensures !RunsThrough(view, branch, requested)
  {
    FrontierStays(view, branch, requested, j + 1);
    if FailsAt(view, branch, requested, k) {
      if j < k {
        EarlierFrontierLives(view, branch, requested, j + 1, k);
      } else if k < j {
        EarlierFrontierLives(view, branch, requested, k + 1, j);
      }
    }
  }

  /** A branch evaluated without error either runs through or fails at some atom. */
  lemma FailsOrRuns(view: View, branch: seq<Atom>, requested: Env)
    requires EvalBranch(view, [requested], branch).Success?
    ensures RunsThrough(view, branch, requested) || exists k :: FailsAt(view, branch, requested, k)
  {
    if !RunsThrough(view, branch, requested) {
      var k := |branch|;
      assert branch[..k] == branch;
      while k > 0 && FrontierBefore(view, branch, requested, k - 1) == Success([])
        invariant k <= |branch|
        invariant FrontierBefore(view, branch, requested, k) == Success([])
      {
        k := k - 1;
      }
      assert k > 0 by {
        assert branch[..0] == [];
      }
      NextFrontier(view, branch, requested, k - 1);
      assert FailsAt(view, branch, requested, k - 1);
    }
  }

  // ---------- deduplication ----------

  ghost predicate SameElements(a: seq<Env>, b: seq<Env>) {
    forall e :: e in a <==> e in b
  }

  lemma EmptyTogether(a: seq<Env>, b: seq<Env>)
    requires SameElements(a, b)
    ensures a == [] <==> b == []
  {
    assert a != [] ==> a[0] in b;
    assert b != [] ==> b[0] in a;
  }

  /** Which atom fails does not depend on repetition or order within the frontier. */
  lemma DedupeKeepsFrontier(view: View, a: seq<Env>, b: seq<Env>, atom: Atom)
    requires SameElements(a, b)
    ensures ExtendFrontier(view, a, atom).Success? <==> ExtendFrontier(view, b, atom).Success?
    ensures ExtendFrontier(view, a, atom).Success? ==>
      SameElements(ExtendFrontier(view, a, atom).value, ExtendFrontier(view, b, atom).value)
  {
    FrontierElements(view, a, atom);
    FrontierElements(view, b, atom);
  }

  lemma LeastExists(envs: set<Env>, leq: (Env, Env) -> bool) returns (least: Env)
    requires TotalOrder(leq) && envs != {}
    ensures least in envs && forall e :: e in envs ==> leq(least, e)
  {
    var e :| e in envs;
    var rest := envs - {e};
    if rest == {} {
      least := e;
      assert envs == {e};
    } else {
      var m := LeastExists(rest, leq);
      least := if leq(e, m) then e else m;
      assert envs == rest + {e};
    }
  }

  /** One environment per sort key, in key order. */
  method DedupeEnvs(envs: seq<Env>, leq: (Env, Env) -> bool) returns (r: seq<Env>)
    requires TotalOrder(leq)
    ensures SameElements(r, envs)
    ensures forall i, j :: 0 <= i < j < |r| ==> leq(r[i], r[j]) && r[i] != r[j]
  {
    var remaining: set<Env> := {};
    for k := 0 to |envs|
      invariant forall e :: e in remaining <==> e in envs[..k]
    {
      remaining := remaining + {envs[k]};
    }
    r := [];
    while remaining != {}
      invariant forall e :: e in envs <==> e in remaining || e in r
      invariant forall i, j :: 0 <= i < j < |r| ==> leq(r[i], r[j]) && r[i] != r[j]
      invariant forall i, e :: 0 <= i < |r| && e in remaining ==> leq(r[i], e) && r[i] != e
      decreases remaining
    {
      ghost var first := LeastExists(remaining, leq);
      var least :| least in remaining && forall e :: e in remaining ==> leq(least, e);
      remaining := remaining - {least};
      r := r + [least];
    }
  }

  method PrimaryEnv(envs: seq<Env>, leq: (Env, Env) -> bool) returns (least: Env)
    requires TotalOrder(leq) && envs != []
    ensures IsLeast(least, envs, leq)
  {
    least := envs[0];
    for k := 1 to |envs|
      invariant least in envs && forall x :: x in envs[..k] ==> leq(least, x)
    {
      if !leq(least, envs[k]) {
        least := envs[k];
      }
    }
    assert envs[..|envs|] == envs;
  }

  // ---------- localization ----------

  ghost predicate LocatedIn(view: View, branch: seq<Atom>, requested: Env, leq: (Env, Env) -> bool, at: Located) {
    && FailsAt(view, branch, requested, at.atomIndex)
    && IsLeast(at.attempted, FrontierBefore(view, branch, requested, at.atomIndex).value, leq)
  }

  /** Runs one branch from the requested binding, with the frontier deduplicated after each atom. */
  method LocalizeBranch(view: View, branch: seq<Atom>, caseIndex: nat, requested: Env, leq: (Env, Env) -> bool)
    returns (r: Result<Option<Located>, string>)
    requires TotalOrder(leq)
    ensures r.Failure? <==> EvalBranch(view, [requested], branch).Failure?
    ensures r == Success(None) ==> RunsThrough(view, branch, requested)
    ensures r.Success? && r.value.Some? ==>
      r.value.value.caseIndex == caseIndex && LocatedIn(view, branch, requested, leq, r.value.value)
  {
    var envs := [requested];
    assert branch[..0] == [];
    for k := 0 to |branch|
      invariant envs != [] && FrontierBefore(view, branch, requested, k).Success?
      invariant SameElements(envs, FrontierBefore(view, branch, requested, k).value)
    {
      NextFrontier(view, branch, requested, k);
      DedupeKeepsFrontier(view, envs, FrontierBefore(view, branch, requested, k).value, branch[k]);
      EmptyTogether(envs, FrontierBefore(view, branch, requested, k).value);
      var next := ExtendFrontier(view, envs, branch[k]);
      if next.Failure? {
        FrontierStays(view, branch, requested, k + 1);
        return Failure(next.error);
      }
      if next.value == [] {
        var attempted := PrimaryEnv(envs, leq);
        EmptyTogether(next.value, FrontierBefore(view, branch, requested, k + 1).value);
        FrontierStays(view, branch, requested, k + 1);
        return Success(Some(Located(caseIndex, k, attempted)));
      }
      envs := DedupeEnvs(next.value, leq);
      EmptyTogether(envs, next.value);
    }
    assert branch[..|branch|] == branch;
    EmptyTogether(envs, EvalBranch(view, [requested], branch).value);
    r := Success(None);
  }

  predicate Before(a: Located, b: Located) {
    a.atomIndex > b.atomIndex || (a.atomIndex == b.atomIndex && a.caseIndex <= b.caseIndex)
  }

  // The deepest failure; among equally deep ones, the one in the smallest branch.
  ghost predicate IsDeepest(view: View, where: seq<seq<Atom>>, requested: Env, leq: (Env, Env) -> bool, at: Located) {
    && at.caseIndex < |where|
    && Considered(where[at.caseIndex], requested)
    && LocatedIn(view, where[at.caseIndex], requested, leq, at)
    && forall i, k: nat :: 0 <= i < |where| && Considered(where[i], requested) && FailsAt(view, where[i], requested, k) ==>
         k < at.atomIndex || (k == at.atomIndex && at.caseIndex <= i)
  }

  ghost predicate Candidate(view: View, where: seq<seq<Atom>>, requested: Env, leq: (Env, Env) -> bool, c: Located, done: nat)
    requires done <= |where|
  {
    c.caseIndex < done && Considered(where[c.caseIndex], requested) && LocatedIn(view, where[c.caseIndex], requested, leq, c)
  }

  ghost predicate Accounted(view: View, branch: seq<Atom>, requested: Env, candidates: seq<Located>, j: nat) {
    RunsThrough(view, branch, requested) || exists c :: c in candidates && c.caseIndex == j
  }

  // One candidate for every considered branch that does not run through.
  ghost predicate Collected(view: View, where: seq<seq<Atom>>, requested: Env, leq: (Env, Env) -> bool,
                            candidates: seq<Located>, done: nat)
    requires done <= |where|
  {
    && (forall c :: c in candidates ==> Candidate(view, where, requested, leq, c, done))
    && (forall j :: 0 <= j < done && Considered(where[j], requested) ==> Accounted(view, where[j], requested, candidates, j))
  }

  lemma AccountedMore(view: View, branch: seq<Atom>, requested: Env, candidates: seq<Located>, more: seq<Located>, j: nat)
    requires Accounted(view, branch, requested, candidates, j) && forall c :: c in candidates ==> c in more
    ensures Accounted(view, branch, requested, more, j)
  {
  }

  lemma CollectedMore(view: View, where: seq<seq<Atom>>, requested: Env, leq: (Env, Env) -> bool,
                      candidates: seq<Located>, done: nat, found: Option<Located>)
    requires done < |where| && Collected(view, where, requested, leq, candidates, done)
    requires Considered(where[done], requested) && found.None? ==> RunsThrough(view, where[done], requested)
    requires found.Some? ==>
      && Considered(where[done], requested) && found.value.caseIndex == done
      && LocatedIn(view, where[done], requested, leq, found.value)
    ensures Collected(view, where, requested, leq, candidates + (if found.Some? then [found.value] else []), done + 1)
  {
    var more := candidates + (if found.Some? then [found.value] else []);
    forall c | c in more
      ensures Candidate(view, where, requested, leq, c, done + 1)
    {
      if c in candidates {
        assert Candidate(view, where, requested, leq, c, done);
      }
    }
    forall j | 0 <= j < done + 1 && Considered(where[j], requested)
      ensures Accounted(view, where[j], requested, more, j)
    {
      if j < done {
        AccountedMore(view, where[j], requested, candidates, more, j);
      } else if found.Some? {
        assert found.value in more;
      }
    }
  }

  method CollectFailures(view: View, where: seq<seq<Atom>>, requested: Env, leq: (Env, Env) -> bool)
    returns (r: Result<seq<Located>, string>)
    requires TotalOrder(leq)
    ensures r.Failure? <==>
      exists i :: 0 <= i < |where| && Considered(where[i], requested) && EvalBranch(view, [requested], where[i]).Failure?
    ensures r.Success? ==> Collected(view, where, requested, leq, r.value, |where|)
  {
    var candidates: seq<Located> := [];
    for i := 0 to |where|
      invariant forall j :: 0 <= j < i && Considered(where[j], requested) ==> EvalBranch(view, [requested], where[j]).Success?
      invariant Collected(view, where, requested, leq, candidates, i)
    {
      if Considered(where[i], requested) {
        var found := LocalizeBranch(view, where[i], i, requested, leq);
        if found.Failure? {
          return Failure(found.error);
        }
        CollectedMore(view, where, requested, leq, candidates, i, found.value);
        if found.value.Some? {
          candidates := candidates + [found.value.value];
        }
        assert candidates + [] == candidates;
      } else {
        CollectedMore(view, where, requested, leq, candidates, i, None);
        assert candidates + [] == candidates;
      }
    }
    r := Success(candidates);
  }

  method FirstInOrder(candidates: seq<Located>) returns (best: Located)
    requires candidates != []
    ensures best in candidates && forall c :: c in candidates ==> Before(best, c)
  {
    best := candidates[0];
    for n := 1 to |candidates|
      invariant best in candidates && forall k :: 0 <= k < n ==> Before(best, candidates[k])
    {
      if !Before(best, candidates[n]) {
        best := candidates[n];
      }
    }
  }

  lemma FirstIsDeepest(view: View, where: seq<seq<Atom>>, requested: Env, leq: (Env, Env) -> bool,
                       candidates: seq<Located>, best: Located)
    requires Collected(view, where, requested, leq, candidates, |where|)
    requires best in candidates && forall c :: c in candidates ==> Before(best, c)
    ensures IsDeepest(view, where, requested, leq, best)
  {
    forall i, k: nat | 0 <= i < |where| && Considered(where[i], requested) && FailsAt(view, where[i], requested, k)
      ensures k < best.atomIndex || (k == best.atomIndex && best.caseIndex <= i)
    {
      FailsOnce(view, where[i], requested, k, k);
      assert Accounted(view, where[i], requested, candidates, i);
      var c :| c in candidates && c.caseIndex == i;
      FailsOnce(view, where[i], requested, k, c.atomIndex);
    }
  }

  method LocalizeFailedAtom(view: View, where: seq<seq<Atom>>, requested: Env, leq: (Env, Env) -> bool)
    returns (r: Result<Option<Located>, string>)
    requires TotalOrder(leq)
    ensures r.Failure? <==>
      exists i :: 0 <= i < |where| && Considered(where[i], requested) && EvalBranch(view, [requested], where[i]).Failure?
    ensures r.Success? ==> (r.value.None? <==>
      forall i :: 0 <= i < |where| && Considered(where[i], requested) ==> RunsThrough(view, where[i], requested))
    ensures r.Success? && r.value.Some? ==> IsDeepest(view, where, requested, leq, r.value.value)
  {
    var candidates :- CollectFailures(view, where, requested, leq);
    if candidates == [] {
      return Success(None);
    }
    var best := FirstInOrder(candidates);
    FirstIsDeepest(view, where, requested, leq, candidates, best);
    FailsOnce(view, where[best.caseIndex], requested, best.atomIndex, best.atomIndex);
    r := Success(Some(best));
  }

  // ---------- diagnosis ----------

  // Diagnosis knows the variables of a whole body, those inside `not` included.
  function MentionedVars(a: Atom): set<string> {
    match a
    case Positive(s) => SimpleVars(s)
    case Not(bodies) => NotVars(bodies)
  }

  function BodyVariables(where: seq<seq<Atom>>): set<string> {
    set b, a, x | b in where && a in b && x in MentionedVars(a) :: x
  }

  predicate AllWin(view: View, where: seq<seq<Atom>>, matches: seq<Env>) {
    forall m :: m in matches ==> WinningCase(view, m, where).Success?
  }

  ghost predicate IsFirstMatch(view: View, where: seq<seq<Atom>>, matches: seq<Env>, leq: (Env, Env) -> bool, c: nat, e: Env) {
    && e in matches && WinningCase(view, e, where) == Success(c)
    && forall m :: m in matches && WinningCase(view, m, where).Success? ==>
         var d := WinningCase(view, m, where).value;
         c < d || (c == d && leq(e, m))
  }

  lemma MatchesSortable(envs: seq<Env>, requested: Env)
    requires Sortable(envs)
    ensures Sortable(MatchesOf(envs, requested))
  {
    MatchesOfElements(envs, requested);
  }

  /** The match of the smallest winning case, and the least one of those. */
  method FirstMatch(view: View, where: seq<seq<Atom>>, matches: seq<Env>, leq: (Env, Env) -> bool) returns (c: nat, e: Env)
    requires TotalOrder(leq) && matches != [] && AllWin(view, where, matches)
    ensures IsFirstMatch(view, where, matches, leq, c, e)
  {
    assert matches[..1] == [matches[0]];
    e := matches[0];
    c := WinningCase(view, e, where).value;
    for k := 1 to |matches|
      invariant IsFirstMatch(view, where, matches[..k], leq, c, e)
    {
      assert matches[..k + 1] == matches[..k] + [matches[k]];
      var d := WinningCase(view, matches[k], where).value;
      if d < c || (d == c && !leq(e, matches[k])) {
        c, e := d, matches[k];
      }
    }
    assert matches[..|matches|] == matches;
  }

  // The evaluated bindings that match the request.
  function Matched(view: View, where: seq<seq<Atom>>, requested: Env): seq<Env> {
    var bindings := EvaluateWhere(view, where);
    if bindings.Failure? then [] else MatchesOf(bindings.value, requested)
  }

  ghost predicate LocalizationRaises(view: View, where: seq<seq<Atom>>, requested: Env) {
    exists i :: 0 <= i < |where| && Considered(where[i], requested) && EvalBranch(view, [requested], where[i]).Failure?
  }

  // Evaluation raises, or finding the winning case of a match does, or, without a match, running a
  // considered branch from the request. Sorting the matches cannot raise: evaluation has sorted them.
  ghost predicate DiagnosisRaises(view: View, where: seq<seq<Atom>>, requested: Env) {
    var matches := Matched(view, where, requested);
    || EvaluateWhere(view, where).Failure?
    || (matches != [] && !AllWin(view, where, matches))
    || (matches == [] && LocalizationRaises(view, where, requested))
  }

  // What a diagnosis of known variables reports when nothing raises.
  ghost predicate Reported(d: Diagnosis, view: View, where: seq<seq<Atom>>, requested: Env,
                           keyLeq: (Env, Env) -> bool, leq: (Env, Env) -> bool) {
    var matches := Matched(view, where, requested);
    match d
    case InvalidRequest => false
    case Passed(count, c, e) => matches != [] && count == |matches| && IsFirstMatch(view, where, matches, leq, c, e)
    case NoCandidate => matches == [] &&
      forall i :: 0 <= i < |where| && Considered(where[i], requested) ==> RunsThrough(view, where[i], requested)
    case AtomLocalized(at) => matches == [] && IsDeepest(view, where, requested, keyLeq, at)
  }

  /**
   Native diagnosis: frontiers are ordered by their sort keys (`keyLeq`), matches by their winning
   case and their items (`leq`).
   */
  method DiagnoseNative(view: View, where: seq<seq<Atom>>, requested: Env, keyLeq: (Env, Env) -> bool,
                        leq: (Env, Env) -> bool)
    returns (r: Result<Diagnosis, string>)
    requires TotalOrder(keyLeq) && TotalOrder(leq)
    ensures r == Success(InvalidRequest) <==> !(requested.Keys <= BodyVariables(where))
    ensures r.Failure? <==> requested.Keys <= BodyVariables(where) && DiagnosisRaises(view, where, requested)
    ensures r.Success? && requested.Keys <= BodyVariables(where) ==>
      Reported(r.value, view, where, requested, keyLeq, leq)
  {
    if !(requested.Keys <= BodyVariables(where)) {
      return Success(InvalidRequest);
    }
    var bindings :- EvaluateWhere(view, where);
    var matches := MatchesOf(bindings, requested);
    assert matches == Matched(view, where, requested);
    if matches != [] {
      if !AllWin(view, where, matches) {
        return Failure("NO_SATISFYING_BRANCH");
      }
      MatchesSortable(bindings, requested);
      var c, e := FirstMatch(view, where, matches, leq);
      return Success(Passed(|matches|, c, e));
    }
    var located :- LocalizeFailedAtom(view, where, requested, keyLeq);
    r := Success(if located.None? then NoCandidate else AtomLocalized(located.value));
  }

  lemma MatchesOfElements(envs: seq<Env>, requested: Env)
    ensures forall e :: e in MatchesOf(envs, requested) <==> e in envs && Matches(e, requested)
  {
  }

  /**
   When nothing matches, every branch that binds all the requested variables has a failing atom,
   as long as arithmetic outputs are requested as integers and `not` bodies use requested
   variables only after the branch binds them.
   */
  lemma NoMatchMeansLocated(view: View, where: seq<seq<Atom>>, requested: Env, i: nat)
    requires EvaluateWhere(view, where).Success? && MatchesOf(EvaluateWhere(view, where).value, requested) == []
    requires i < |where| && requested.Keys <= BranchVars(where[i])
    requires IntegersRequested(where[i], {}, requested) && NegationScoped(where[i], {}, requested)
    ensures exists k :: FailsAt(view, where[i], requested, k)
  {
    var branch := where[i];
    assert branch in where;
    BranchesElements(view, where, i);
    DedupeElements(EvalBranches(view, where).value);
    SafeIsSeedSafe(branch, {}, requested);
    SeedingEqualsFiltering(view, branch, requested);
    var all := EvalBranch(view, [map[]], branch).value;
    MatchesOfElements(all, requested);
    MatchesOfElements(EvaluateWhere(view, where).value, requested);
    forall e | e in all
      ensures !Matches(e, requested)
    {
      assert e in EvaluateWhere(view, where).value;
    }
    NoMatches(all, requested);
    FailsOrRuns(view, branch, requested);
  }

  /**
   The converse needs no condition on where `not` bodies use the request: a branch with a failing atom
   has no evaluated match.
   */
  lemma LocatedMeansNoMatch(view: View, branch: seq<Atom>, requested: Env, k: nat)
    requires FailsAt(view, branch, requested, k)
    requires SafeBranch(branch, {}) && EvalBranch(view, [map[]], branch).Success? && requested.Keys <= BranchVars(branch)
    requires IntegersRequested(branch, {}, requested) && NegationIntegersRequested(branch, {}, requested)
    ensures MatchesOf(EvalBranch(view, [map[]], branch).value, requested) == []
  {
    FrontierStays(view, branch, requested, k + 1);
    NegationExactness(view, branch, requested);
    assert Select(view, branch, {}, []) == [];
  }
}
