/**
 Isolated replay: evaluated bindings are projected on the head, one row is kept for each distinct
 projection, and the rows are returned sorted.
 */
module IsolatedReplay {
  import opened Wrappers
  import opened WhereEval
  import opened WinningCases
  import Order = StringOrder

  datatype Selection = Selection(alias: string, valueType: string, variable: string)

  datatype Shown = Shown(alias: string, valueType: string, value: Value)

  datatype Row = Row(semantic: string, support: string)

  datatype Candidate = Candidate(values: seq<Shown>, support: string)

  // The parts whose definition lies elsewhere: canonical storage values and digests.
  datatype Context = Context(
    view: View,
    where: seq<seq<Atom>>,
    head: seq<Selection>,
    canonical: (string, Value) -> Result<Value, string>,
    semanticDigest: seq<Shown> -> string,
    supportDigest: (Env, nat) -> string)

  function ProjectHead(head: seq<Selection>, binding: Env, canonical: (string, Value) -> Result<Value, string>)
    : Result<seq<Shown>, string>
  {
    if head == [] then Success([])
    else if head[0].variable !in binding then Failure("KEY_ERROR")
    else
      var value :- canonical(head[0].valueType, binding[head[0].variable]);
      var rest :- ProjectHead(head[1..], binding, canonical);
      Success([Shown(head[0].alias, head[0].valueType, value)] + rest)
  }

  /** The projection of a binding, with the digest of the receipt rebuilt in its winning branch. */
  function CandidateOf(context: Context, binding: Env): Result<Candidate, string> {
    var branch :- WinningCase(context.view, binding, context.where);
    var values :- ProjectHead(context.head, binding, context.canonical);
    Success(Candidate(values, context.supportDigest(binding, branch)))
  }

  // One shown value per selection, in order: the canonical form of what the binding gives its variable.
  ghost predicate Projected(head: seq<Selection>, binding: Env, canonical: (string, Value) -> Result<Value, string>, shown: seq<Shown>) {
    |shown| == |head| && forall i :: 0 <= i < |head| ==> ShowsSelection(head[i], binding, canonical, shown[i])
  }

  ghost predicate ShowsSelection(selection: Selection, binding: Env, canonical: (string, Value) -> Result<Value, string>, x: Shown) {
    && x.alias == selection.alias && x.valueType == selection.valueType && selection.variable in binding
    && canonical(selection.valueType, binding[selection.variable]) == Success(x.value)
  }

  lemma ProjectedCons(head: seq<Selection>, binding: Env, canonical: (string, Value) -> Result<Value, string>, shown: seq<Shown>)
    requires |shown| == |head| > 0
    ensures Projected(head, binding, canonical, shown)
      <==> ShowsSelection(head[0], binding, canonical, shown[0]) && Projected(head[1..], binding, canonical, shown[1..])
  {
    if ShowsSelection(head[0], binding, canonical, shown[0]) && Projected(head[1..], binding, canonical, shown[1..]) {
      forall i | 0 <= i < |head|
        ensures ShowsSelection(head[i], binding, canonical, shown[i])
      {
        assert i > 0 ==> ShowsSelection(head[1..][i - 1], binding, canonical, shown[1..][i - 1]);
      }
    }
  }

  lemma {:induction false} ProjectMeans(head: seq<Selection>, binding: Env, canonical: (string, Value) -> Result<Value, string>, shown: seq<Shown>)
    ensures ProjectHead(head, binding, canonical) == Success(shown) <==> Projected(head, binding, canonical, shown)
  {
    if head != [] && shown != [] {
      ProjectMeans(head[1..], binding, canonical, shown[1..]);
      if |shown| == |head| {
        ProjectedCons(head, binding, canonical, shown);
      }
      assert shown == [shown[0]] + shown[1..];
    }
  }

  /** A candidate is the projection of the head, with the digest of the receipt in the winning branch. */
  lemma CandidateMeans(context: Context, binding: Env, c: Candidate)
    ensures CandidateOf(context, binding) == Success(c) <==>
      && Projected(context.head, binding, context.canonical, c.values)
      && WinningCase(context.view, binding, context.where).Success?
      && c.support == context.supportDigest(binding, WinningCase(context.view, binding, context.where).value)
  {
    ProjectMeans(context.head, binding, context.canonical, c.values);
  }

  // ---------- rows in order ----------

  predicate Leq(a: Row, b: Row) {
    Order.Less(a.semantic, b.semantic) || (a.semantic == b.semantic && !Order.Less(b.support, a.support))
  }

  predicate SortedRows(rows: seq<Row>) {
    forall i, j :: 0 <= i < j < |rows| ==> Leq(rows[i], rows[j])
  }

  lemma LeqTotal(a: Row, b: Row)
    ensures Leq(a, b) || Leq(b, a)
  {
    Order.LessTotal(a.semantic, b.semantic);
    Order.LessTotal(a.support, b.support);
    if a.semantic == b.semantic && Order.Less(b.support, a.support) {
      Order.LessAsymmetric(b.support, a.support);
    }
  }

  lemma LeqAntisymmetric(a: Row, b: Row)
    requires Leq(a, b) && Leq(b, a)
    ensures a == b
  {
    if Order.Less(a.semantic, b.semantic) {
      Order.LessAsymmetric(a.semantic, b.semantic);
    } else if Order.Less(b.semantic, a.semantic) {
      Order.LessAsymmetric(b.semantic, a.semantic);
    }
    Order.LessTotal(a.support, b.support);
  }

  lemma NotLessTransitive(a: string, b: string, c: string)
    requires !Order.Less(b, a) && !Order.Less(c, b)
    ensures !Order.Less(c, a)
  {
    Order.LessTotal(a, b);
    Order.LessTotal(b, c);
    if Order.Less(c, a) && a != b && b != c {
      Order.LessTransitive(a, b, c);
      Order.LessAsymmetric(a, c);
    }
  }

  lemma LeqTransitive(a: Row, b: Row, c: Row)
    requires Leq(a, b) && Leq(b, c)
    ensures Leq(a, c)
  {
    if Order.Less(a.semantic, b.semantic) && Order.Less(b.semantic, c.semantic) {
      Order.LessTransitive(a.semantic, b.semantic, c.semantic);
    } else if a.semantic == b.semantic == c.semantic {
      NotLessTransitive(a.support, b.support, c.support);
    }
  }

  function Insert(row: Row, rows: seq<Row>): seq<Row> {
    if rows == [] then [row]
    else if Leq(row, rows[0]) then [row] + rows
    else [rows[0]] + Insert(row, rows[1..])
  }

  function Sort(rows: seq<Row>): seq<Row> {
    if rows == [] then [] else Insert(rows[0], Sort(rows[1..]))
  }

  lemma {:induction false} Inserted(row: Row, rows: seq<Row>)
    requires SortedRows(rows)
    ensures SortedRows(Insert(row, rows)) && multiset(Insert(row, rows)) == multiset{row} + multiset(rows)
  {
    if rows == [] {
    } else if Leq(row, rows[0]) {
      forall i | 0 <= i < |rows|
        ensures Leq(row, rows[i])
      {
        if i > 0 {
          LeqTransitive(row, rows[0], rows[i]);
        }
      }
    } else {
      LeqTotal(row, rows[0]);
      Inserted(row, rows[1..]);
      assert rows == [rows[0]] + rows[1..];
      var rest := Insert(row, rows[1..]);
      forall i | 0 <= i < |rest|
        ensures Leq(rows[0], rest[i])
      {
        assert rest[i] in multiset{row} + multiset(rows[1..]);
      }
    }
  }

  lemma {:induction false} SortSorts(rows: seq<Row>)
    ensures SortedRows(Sort(rows)) && multiset(Sort(rows)) == multiset(rows)
  {
    if rows != [] {
      SortSorts(rows[1..]);
      Inserted(rows[0], Sort(rows[1..]));
      assert rows == [rows[0]] + rows[1..];
    }
  }

  lemma FirstIsLeast(a: seq<Row>, row: Row)
    requires SortedRows(a) && row in a
    ensures a[0] == row || Leq(a[0], row)
  {
    var i :| 0 <= i < |a| && a[i] == row;
  }

  lemma SameTails(a: seq<Row>, b: seq<Row>)
    requires a != [] && b != [] && a[0] == b[0] && multiset(a) == multiset(b)
    ensures multiset(a[1..]) == multiset(b[1..])
  {
    assert a == [a[0]] + a[1..] && b == [b[0]] + b[1..];
    assert multiset(a[1..]) == multiset(a) - multiset{a[0]};
    assert multiset(b[1..]) == multiset(b) - multiset{b[0]};
  }

  /** Sorting leaves no choice: sorted lists of the same rows are equal. */
  lemma {:induction false} SortedOnce(a: seq<Row>, b: seq<Row>)
    requires SortedRows(a) && SortedRows(b) && multiset(a) == multiset(b)
    ensures a == b
    decreases |a|
  {
    assert |multiset(a)| == |a| && |multiset(b)| == |b|;
    if a != [] {
      assert a[0] in multiset(b) && b[0] in multiset(a);
      FirstIsLeast(b, a[0]);
      FirstIsLeast(a, b[0]);
      if a[0] != b[0] {
        LeqAntisymmetric(a[0], b[0]);
      }
      SameTails(a, b);
      SortedOnce(a[1..], b[1..]);
      assert a == [a[0]] + a[1..] && b == [b[0]] + b[1..];
    }
  }

  // ---------- one row per projection ----------

  ghost predicate AllProject(context: Context, bindings: seq<Env>) {
    forall b :: b in bindings ==> CandidateOf(context, b).Success?
  }

  // The candidate of some binding.
  ghost predicate Offered(context: Context, bindings: seq<Env>, c: Candidate) {
    exists b :: b in bindings && CandidateOf(context, b) == Success(c)
  }

  // Exactly the distinct projections, each with the smallest receipt digest of its group.
  ghost predicate Best(context: Context, bindings: seq<Env>, selected: map<seq<Shown>, Row>) {
    && (forall v :: v in selected ==>
          && selected[v].semantic == context.semanticDigest(v)
          && Offered(context, bindings, Candidate(v, selected[v].support)))
    && (forall c :: Offered(context, bindings, c) ==>
          c.values in selected && !Order.Less(c.support, selected[c.values].support))
  }

  ghost function RowsOf<K>(selected: map<K, Row>): multiset<Row>
    decreases |selected|
  {
    if selected == map[] then multiset{}
    else
      var v :| v in selected;
      multiset{selected[v]} + RowsOf(selected - {v})
  }

  lemma {:induction false} RowsOfTakes<K>(selected: map<K, Row>, v: K)
    requires v in selected
    ensures RowsOf(selected) == multiset{selected[v]} + RowsOf(selected - {v})
    decreases |selected|
  {
    var first :| first in selected && RowsOf(selected) == multiset{selected[first]} + RowsOf(selected - {first});
    if first != v {
      var both := selected - {first, v};
      assert selected - {first} - {v} == both && selected - {v} - {first} == both;
      RowsOfTakes(selected - {first}, v);
      RowsOfTakes(selected - {v}, first);
    }
  }

  lemma {:induction false} RowsOfSize<K>(selected: map<K, Row>)
    ensures |RowsOf(selected)| == |selected|
    decreases |selected|
  {
    if selected != map[] {
      var v :| v in selected && RowsOf(selected) == multiset{selected[v]} + RowsOf(selected - {v});
      RowsOfSize(selected - {v});
    }
  }

  method SortedValues(selected: map<seq<Shown>, Row>) returns (rows: seq<Row>)
    ensures SortedRows(rows) && multiset(rows) == RowsOf(selected) && |rows| == |selected|
  {
    rows := [];
    var remaining := selected;
    while remaining != map[]
      invariant multiset(rows) + RowsOf(remaining) == RowsOf(selected)
      decreases |remaining|
    {
      var v :| v in remaining;
      RowsOfTakes(remaining, v);
      rows := rows + [remaining[v]];
      remaining := remaining - {v};
    }
    SortSorts(rows);
    rows := Sort(rows);
    RowsOfSize(selected);
    assert |rows| == |multiset(rows)|;
  }

  lemma OfferedMore(context: Context, bindings: seq<Env>, k: nat, c: Candidate)
    requires k < |bindings|
    ensures Offered(context, bindings[..k + 1], c)
      <==> Offered(context, bindings[..k], c) || CandidateOf(context, bindings[k]) == Success(c)
  {
    assert bindings[..k + 1] == bindings[..k] + [bindings[k]];
    assert forall b :: b in bindings[..k + 1] <==> b in bindings[..k] || b == bindings[k];
  }

  // The rows kept once a candidate has been considered.
  function Select(context: Context, selected: map<seq<Shown>, Row>, c: Candidate): map<seq<Shown>, Row> {
    if c.values !in selected || Order.Less(c.support, selected[c.values].support)
    then selected[c.values := Row(context.semanticDigest(c.values), c.support)] else selected
  }

  lemma SelectKeepsBest(context: Context, bindings: seq<Env>, k: nat, selected: map<seq<Shown>, Row>, c: Candidate, d: Candidate)
    requires k < |bindings| && Best(context, bindings[..k], selected) && CandidateOf(context, bindings[k]) == Success(c)
    requires Offered(context, bindings[..k + 1], d)
    ensures var next := Select(context, selected, c);
      d.values in next && !Order.Less(d.support, next[d.values].support)
  {
    OfferedMore(context, bindings, k, d);
    Order.LessIrreflexive(c.support);
    if d.values == c.values && c.values in selected && Order.Less(c.support, selected[c.values].support)
       && Offered(context, bindings[..k], d) && Order.Less(d.support, c.support) {
      Order.LessTransitive(d.support, c.support, selected[c.values].support);
    }
  }

  lemma BestStep(context: Context, bindings: seq<Env>, k: nat, selected: map<seq<Shown>, Row>, c: Candidate)
    requires k < |bindings| && Best(context, bindings[..k], selected) && CandidateOf(context, bindings[k]) == Success(c)
    ensures Best(context, bindings[..k + 1], Select(context, selected, c))
  {
    var prefix, next := bindings[..k + 1], Select(context, selected, c);
    forall v | v in next
      ensures next[v].semantic == context.semanticDigest(v) && Offered(context, prefix, Candidate(v, next[v].support))
    {
      OfferedMore(context, bindings, k, Candidate(v, next[v].support));
    }
    forall d | Offered(context, prefix, d)
      ensures d.values in next && !Order.Less(d.support, next[d.values].support)
    {
      SelectKeepsBest(context, bindings, k, selected, c, d);
    }
  }

  lemma ProjectMore(context: Context, bindings: seq<Env>, k: nat)
    requires k < |bindings| && AllProject(context, bindings[..k])
    ensures AllProject(context, bindings[..k + 1]) <==> CandidateOf(context, bindings[k]).Success?
    ensures CandidateOf(context, bindings[k]).Failure? ==> !AllProject(context, bindings)
  {
    assert bindings[..k + 1] == bindings[..k] + [bindings[k]];
    assert bindings[k] in bindings && bindings[k] in bindings[..k + 1];
  }

  /** Rows of the best candidates, sorted; the first binding that cannot be projected fails the replay. */
  method ExecuteIsolated(context: Context, bindings: seq<Env>)
    returns (r: Result<seq<Row>, string>, ghost selected: map<seq<Shown>, Row>)
    ensures r.Success? <==> AllProject(context, bindings)
    ensures r.Success? ==> Best(context, bindings, selected) && SortedRows(r.value) && multiset(r.value) == RowsOf(selected)
    ensures r.Success? ==> |r.value| == |selected|
  {
    var kept: map<seq<Shown>, Row> := map[];
    selected := kept;
    for k := 0 to |bindings|
      invariant AllProject(context, bindings[..k]) && Best(context, bindings[..k], kept)
    {
      ProjectMore(context, bindings, k);
      var candidate := CandidateOf(context, bindings[k]);
      if candidate.Failure? {
        return Failure(candidate.error), kept;
      }
      var c := candidate.value;
      BestStep(context, bindings, k, kept, c);
      if c.values !in kept || Order.Less(c.support, kept[c.values].support) {
        kept := kept[c.values := Row(context.semanticDigest(c.values), c.support)];
      }
    }
    assert bindings[..|bindings|] == bindings;
    var rows := SortedValues(kept);
    return Success(rows), kept;
  }

  lemma BestOnce(context: Context, p: seq<Env>, q: seq<Env>, a: map<seq<Shown>, Row>, b: map<seq<Shown>, Row>)
    requires forall e :: e in p <==> e in q
    requires Best(context, p, a) && Best(context, q, b)
    ensures a == b
  {
    assert forall c :: Offered(context, p, c) <==> Offered(context, q, c);
    forall v | v in a
      ensures v in b && a[v] == b[v]
    {
      assert Offered(context, q, Candidate(v, a[v].support));
      assert Offered(context, p, Candidate(v, b[v].support));
      Order.LessTotal(a[v].support, b[v].support);
    }
    forall v | v in b
      ensures v in a
    {
      assert Offered(context, p, Candidate(v, b[v].support));
    }
  }

  /** The rows do not depend on the order, or the repetition, of the bindings. */
  lemma OrderDoesNotMatter(context: Context, p: seq<Env>, q: seq<Env>, a: map<seq<Shown>, Row>, b: map<seq<Shown>, Row>,
                           x: seq<Row>, y: seq<Row>)
    requires forall e :: e in p <==> e in q
    requires Best(context, p, a) && Best(context, q, b)
    requires SortedRows(x) && multiset(x) == RowsOf(a)
    requires SortedRows(y) && multiset(y) == RowsOf(b)
    ensures x == y
  {
    BestOnce(context, p, q, a, b);
    SortedOnce(x, y);
  }

  /** The order of rows: by semantic digest, and among equal ones by receipt digest. */
  lemma SortedMeans(rows: seq<Row>)
    ensures SortedRows(rows) <==> forall i, j :: 0 <= i < j < |rows| ==>
      && !Order.Less(rows[j].semantic, rows[i].semantic)
      && (rows[i].semantic == rows[j].semantic ==> !Order.Less(rows[j].support, rows[i].support))
  {
    forall i, j | 0 <= i < j < |rows|
      ensures Leq(rows[i], rows[j])
        <==> (&& !Order.Less(rows[j].semantic, rows[i].semantic)
              && (rows[i].semantic == rows[j].semantic ==> !Order.Less(rows[j].support, rows[i].support)))
    {
      Order.LessTotal(rows[i].semantic, rows[j].semantic);
      if Order.Less(rows[i].semantic, rows[j].semantic) {
        Order.LessAsymmetric(rows[i].semantic, rows[j].semantic);
      }
    }
  }
}
