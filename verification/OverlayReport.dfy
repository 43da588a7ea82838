/** What an overlay check reports, told by the rows, the solutions of the body and the requested binding. */
module OverlayReport {
  import opened Wrappers
  import opened WhereEval
  import opened Frontiers
  import opened SeededBranches
  import opened Diagnose
  import opened DiagnosisMeaning
  import opened Overlay
  import opened OverlayCheck
  import opened OverlayMeaning
  import opened WhereMeaning

  // The view shows the tuples of every predicate, in the order of its rows.
  ghost predicate Displays(view: View, relation: Relation) {
    view.Keys == relation.Keys && forall p :: p in relation ==> DisplaysRows(view[p], relation[p])
  }

  ghost predicate DisplaysRows(tuples: seq<Row>, rows: seq<Projected>) {
    |tuples| == |rows| && forall i :: 0 <= i < |rows| ==> tuples[i] == rows[i].tuple
  }

  lemma ViewDisplays(relation: Relation)
    ensures Displays(ViewOf(relation), relation)
  {
  }

  // A tuple is seen after the actions if it was and its row is untouched, or if it replaces another.
  ghost predicate SeenAfter(actions: seq<Action>, relation: Relation, pred: string, tuple: Row)
    requires pred in relation
  {
    || (exists i :: 0 <= i < |relation[pred]| && relation[pred][i].tuple == tuple && Untouched(actions, pred, relation[pred][i].id))
    || (exists i :: 0 <= i < |actions| && actions[i].ReplaceFact? && actions[i].pred == pred && actions[i].newTuple == tuple)
  }

  /** The tuples of a predicate after accepted actions. */
  lemma ViewAfter(actions: seq<Action>, relation: Relation, keys: GroupKeys, pred: string, tuple: Row)
    requires Accepted(actions, relation, keys) && pred in relation
    ensures tuple in ViewOf(Applied(actions, relation))[pred] <==> SeenAfter(actions, relation, pred, tuple)
  {
    var after, view := Applied(actions, relation)[pred], ViewOf(Applied(actions, relation))[pred];
    if i :| 0 <= i < |after| && view[i] == tuple {
      AppliedMeans(actions, relation, keys, pred, after[i]);
      if after[i] in relation[pred] && Untouched(actions, pred, after[i].id) {
        var k :| 0 <= k < |relation[pred]| && relation[pred][k] == after[i];
      }
    }
    if i :| 0 <= i < |relation[pred]| && relation[pred][i].tuple == tuple && Untouched(actions, pred, relation[pred][i].id) {
      ShownRow(actions, relation, keys, pred, relation[pred][i]);
    }
    if i :| 0 <= i < |actions| && actions[i].ReplaceFact? && actions[i].pred == pred && actions[i].newTuple == tuple {
      ShownRow(actions, relation, keys, pred, Projected(actions[i].id, tuple));
    }
  }

  lemma ShownRow(actions: seq<Action>, relation: Relation, keys: GroupKeys, pred: string, row: Projected)
    requires Accepted(actions, relation, keys) && pred in relation
    requires (row in relation[pred] && Untouched(actions, pred, row.id)) || ReplacedBy(actions, pred, row)
    ensures row.tuple in ViewOf(Applied(actions, relation))[pred]
  {
    AppliedMeans(actions, relation, keys, pred, row);
    var after := Applied(actions, relation)[pred];
    var i :| 0 <= i < |after| && after[i] == row;
    assert ViewOf(Applied(actions, relation))[pred][i] == row.tuple;
  }

  // The distinct solutions that have every requested item.
  ghost predicate AllMatches(view: View, where: seq<seq<Atom>>, requested: Env, matches: seq<Env>) {
    DistinctEnvs(matches) && forall e :: e in matches <==> SolutionMatches(view, where, requested, e)
  }

  // A phase fails without a match; otherwise it reports their number and the least of them.
  ghost predicate PhaseShows(view: View, where: seq<seq<Atom>>, requested: Env, leq: (Env, Env) -> bool, phase: Phase) {
    exists matches :: AllMatches(view, where, requested, matches)
      && if phase.Failed? then matches == []
         else phase.count == |matches| && IsLeast(phase.primary, matches, leq)
  }

  /** Each phase of the check reports the solutions of the body over what is then visible. */
  lemma PhaseMeans(relation: Relation, where: seq<seq<Atom>>, requested: Env, leq: (Env, Env) -> bool, phase: Phase)
    requires EvaluateWhere(ViewOf(relation), where).Success?
    requires Reports(phase, MatchesOf(EvaluateWhere(ViewOf(relation), where).value, requested), leq)
    ensures PhaseShows(ViewOf(relation), where, requested, leq, phase)
  {
    var bindings := EvaluateWhere(ViewOf(relation), where).value;
    EvaluationMeaning(ViewOf(relation), where);
    MatchedMeaning(ViewOf(relation), where, requested);
    MatchesDistinct(bindings, requested);
    assert AllMatches(ViewOf(relation), where, requested, MatchesOf(bindings, requested));
  }

  // The primary binding is reported as added or removed unless the other phase has the same one.
  ghost predicate OnlyIn(phase: Phase, other: Phase, reported: seq<Env>) {
    if phase.Passed? && (other.Failed? || other.primary != phase.primary) then reported == [phase.primary] else reported == []
  }

  ghost predicate DiffShows(before: Phase, after: Phase, diff: Diff) {
    && (diff.statusChanged <==> (before.Passed? && after.Failed?) || (before.Failed? && after.Passed?))
    && diff.countDelta == (if after.Passed? then after.count else 0) - (if before.Passed? then before.count else 0)
    && OnlyIn(after, before, diff.added) && OnlyIn(before, after, diff.removed)
  }

  /** The difference compares the status, the number of matches and the primary bindings. */
  lemma DiffMeans(before: Phase, after: Phase)
    ensures DiffShows(before, after, BuildDiff(before, after))
  {
    if before.Passed? {
      MissingSingle(before.primary, PhaseBindings(after));
    }
    if after.Passed? {
      MissingSingle(after.primary, PhaseBindings(before));
    }
  }
}
