/** The wire form of compiled plans in a sealed program. */
module ReplayPrograms {
  import opened Wrappers
  import opened StructuralCodec
  import opened CodecExactness

  const RECORD_TYPE := "FactGraphCompiledDerivationPlanV1"

  datatype Head = Head(target: string, variables: seq<string>)

  datatype Plan = Plan(derivationId: string, version: string, body: seq<Value>, heads: seq<Head>)

  // A plan with one head whose body is canonical; the grammar of bodies is a parameter.
  predicate Capturable(plan: Plan, valid: Plan -> bool) {
    |plan.heads| == 1 && valid(plan)
  }

  function TextList(texts: seq<string>): Json {
    JList(seq(|texts|, i requires 0 <= i < |texts| => JText(texts[i])))
  }

  function HeadWire(head: Head): Json {
    JObject(map["target_pred_id" := JText(head.target), "head_var_names" := TextList(head.variables)])
  }

  function HeadWires(heads: seq<Head>): seq<Json> {
    seq(|heads|, i requires 0 <= i < |heads| => HeadWire(heads[i]))
  }

  function PlanObject(plan: Plan, body: Json): Json {
    JObject(map["$type" := JText(RECORD_TYPE), "derivation_id" := JText(plan.derivationId), "version" := JText(plan.version),
                "body_ir" := body, "heads" := JList(HeadWires(plan.heads))])
  }

  function PlanWire(plan: Plan, valid: Plan -> bool): Result<Json, CodecError> {
    if !Capturable(plan, valid) then Failure(ShapeInvalid)
    else
      var body :- Encode(List(plan.body), 0);
      Success(PlanObject(plan, body))
  }

  function TextsOf(items: seq<Json>): Result<seq<string>, CodecError> {
    if items == [] then Success([])
    else if !items[0].JText? then Failure(ShapeInvalid)
    else
      var rest :- TextsOf(items[1..]);
      Success([items[0].s] + rest)
  }

  function HeadFromWire(wire: Json): Result<Head, CodecError> {
    if !wire.JObject? || wire.fields.Keys != {"target_pred_id", "head_var_names"} then Failure(ShapeInvalid)
    else if !wire.fields["target_pred_id"].JText? || !wire.fields["head_var_names"].JList? then Failure(ShapeInvalid)
    else
      var variables :- TextsOf(wire.fields["head_var_names"].items);
      Success(Head(wire.fields["target_pred_id"].s, variables))
  }

  function HeadsFromWire(items: seq<Json>): Result<seq<Head>, CodecError> {
    if items == [] then Success([])
    else
      var first :- HeadFromWire(items[0]);
      var rest :- HeadsFromWire(items[1..]);
      Success([first] + rest)
  }

  predicate IsPlanObject(wire: Json) {
    && wire.JObject? && wire.fields.Keys == {"$type", "derivation_id", "version", "body_ir", "heads"}
    && wire.fields["$type"] == JText(RECORD_TYPE)
    && wire.fields["derivation_id"].JText? && wire.fields["version"].JText?
  }

  /** Decodes a plan; a wire form that the plan does not encode back to is refused. */
  function PlanFromWire(wire: Json, valid: Plan -> bool): Result<Plan, CodecError> {
    if !IsPlanObject(wire) then Failure(ShapeInvalid)
    else
      var body :- DecodeProgram(wire.fields["body_ir"]);
      if !body.List? || !wire.fields["heads"].JList? || wire.fields["heads"].items == [] then Failure(ShapeInvalid)
      else
        var heads :- HeadsFromWire(wire.fields["heads"].items);
        var plan := Plan(wire.fields["derivation_id"].s, wire.fields["version"].s, body.items, heads);
        if PlanWire(plan, valid) != Success(wire) then Failure(ShapeInvalid) else Success(plan)
  }

  // ---------- round trip ----------

  lemma {:induction false} TextsBack(texts: seq<string>)
    ensures TextsOf(TextList(texts).items) == Success(texts)
  {
    var items := TextList(texts).items;
    if texts == [] {
      assert items == [];
    } else {
      assert items[1..] == TextList(texts[1..]).items;
      TextsBack(texts[1..]);
      assert texts == [texts[0]] + texts[1..];
    }
  }

  lemma HeadBack(head: Head)
    ensures HeadFromWire(HeadWire(head)) == Success(head)
  {
    TextsBack(head.variables);
    assert HeadWire(head).fields.Keys == {"target_pred_id", "head_var_names"};
  }

  lemma {:induction false} HeadsBack(heads: seq<Head>)
    ensures HeadsFromWire(HeadWires(heads)) == Success(heads)
  {
    var items := HeadWires(heads);
    if heads != [] {
      HeadBack(heads[0]);
      assert items[1..] == HeadWires(heads[1..]);
      HeadsBack(heads[1..]);
      assert heads == [heads[0]] + heads[1..];
    }
  }

  lemma PlanParts(plan: Plan, body: Json)
    ensures IsPlanObject(PlanObject(plan, body))
    ensures var fields := PlanObject(plan, body).fields;
      && fields["derivation_id"].s == plan.derivationId && fields["version"].s == plan.version && fields["body_ir"] == body
      && fields["heads"] == JList(HeadWires(plan.heads))
      && HeadsFromWire(fields["heads"].items) == Success(plan.heads)
  {
    HeadsBack(plan.heads);
    assert PlanObject(plan, body).fields.Keys == {"$type", "derivation_id", "version", "body_ir", "heads"};
  }

  /** A plan that can be encoded comes back from its wire form, exactly when its body is not too large. */
  lemma PlanRoundTrip(plan: Plan, valid: Plan -> bool)
    requires PlanWire(plan, valid).Success?
    ensures if Nodes(List(plan.body)) <= MAX_NODES then PlanFromWire(PlanWire(plan, valid).value, valid) == Success(plan)
            else PlanFromWire(PlanWire(plan, valid).value, valid).Failure?
  {
    var body := Encode(List(plan.body), 0).value;
    PlanParts(plan, body);
    RoundTrip(List(plan.body), 0, MAX_NODES);
  }

  /** An accepted wire form is the encoding of its plan, so the plan can be sealed and decoded again. */
  lemma AcceptedPlan(wire: Json, valid: Plan -> bool)
    requires PlanFromWire(wire, valid).Success?
    ensures PlanWire(PlanFromWire(wire, valid).value, valid) == Success(wire)
    ensures Nodes(List(PlanFromWire(wire, valid).value.body)) <= MAX_NODES
  {
    TreeSurvives(wire.fields["body_ir"]);
    var body := DecodeProgram(wire.fields["body_ir"]).value;
    assert body == List(body.items);
  }

  /** A plan can be encoded exactly if it has one head, its body is valid, and the body is plain and not too deep. */
  lemma PlanEncodes(plan: Plan, valid: Plan -> bool)
    ensures PlanWire(plan, valid).Success? <==> |plan.heads| == 1 && valid(plan) && Plain(List(plan.body)) && Depth(List(plan.body)) <= 64
  {
    Encodable(List(plan.body), 0);
  }

  /** A wire form decodes to a plan exactly if the plan encodes to it and its body is not too large. */
  lemma DecodesExactly(wire: Json, plan: Plan, valid: Plan -> bool)
    ensures PlanFromWire(wire, valid) == Success(plan) <==> PlanWire(plan, valid) == Success(wire) && Nodes(List(plan.body)) <= 100_000
  {
    if PlanFromWire(wire, valid) == Success(plan) {
      AcceptedPlan(wire, valid);
    }
    if PlanWire(plan, valid) == Success(wire) {
      PlanRoundTrip(plan, valid);
    }
  }
}
