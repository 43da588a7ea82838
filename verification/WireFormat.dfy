/** The wire forms of values and plans, spelled out node by node. */
module WireFormat {
  import opened Wrappers
  import opened StructuralCodec
  import opened CodecExactness
  import B = Base64Url
  import Order = StringOrder
  import P = ReplayPrograms

  // A tagged node: its type, its kind and one more field.
  ghost predicate IsNode(node: Json, kind: string, field: string, content: Json) {
    node == JObject(map["$type" := JText("FactGraphStructuralValueV1"), "kind" := JText(kind), field := content])
  }

  ghost predicate IsScalar(node: Json, content: Json) {
    IsNode(node, "scalar", "value", content)
  }

  // Scalars are JSON scalars, floats hexadecimal text, bytes base64url text; lists keep their order, maps are sorted by key.
  ghost predicate IsTreeOf(v: Value, node: Json)
    decreases v, 1
  {
    match v
    case Null => IsScalar(node, JNull)
    case Flag(b) => IsScalar(node, JBool(b))
    case Int(n) => IsScalar(node, JInt(n))
    case Text(s) => IsScalar(node, JText(s))
    case Float(hex) => IsNode(node, "float64", "value", JText(hex))
    case Bytes(bytes) => IsNode(node, "bytes", "value", JText(B.Encode(bytes)))
    case Tuple(items) => exists nodes :: IsNode(node, "tuple", "items", JList(nodes)) && AreTreesOf(items, nodes)
    case List(items) => exists nodes :: IsNode(node, "list", "items", JList(nodes)) && AreTreesOf(items, nodes)
    case Dict(entries) => exists keys, nodes :: IsNode(node, "map", "items", JList(nodes)) && AreEntriesOf(v, entries, keys, nodes)
    case _ => false
  }

  ghost predicate AreTreesOf(items: seq<Value>, nodes: seq<Json>)
    decreases items, 0
  {
    |nodes| == |items| && forall i :: 0 <= i < |items| ==> IsTreeOf(items[i], nodes[i])
  }

  // One pair of key and value for every entry, in ascending order of the keys; no key is empty.
  ghost predicate AreEntriesOf(v: Value, entries: map<string, Value>, keys: seq<string>, nodes: seq<Json>)
    requires v == Dict(entries)
    decreases v, 0
  {
    && Order.Ascending(keys) && (forall k :: k in keys <==> k in entries) && "" !in entries
    && |nodes| == |keys|
    && forall i :: 0 <= i < |keys| ==> keys[i] in v.entries && IsEntryOf(v.entries[keys[i]], keys[i], nodes[i])
  }

  ghost predicate IsEntryOf(value: Value, key: string, node: Json)
    decreases value, 2
  {
    exists child :: node == JList([JText(key), child]) && IsTreeOf(value, child)
  }

  lemma {:induction false} CollectMeans(results: seq<Result<Json, CodecError>>, nodes: seq<Json>)
    requires Collect(results) == Success(nodes)
    ensures |nodes| == |results| && forall i :: 0 <= i < |results| ==> results[i] == Success(nodes[i])
  {
    if results != [] {
      CollectMeans(results[1..], nodes[1..]);
      assert nodes == [nodes[0]] + nodes[1..];
      assert forall i :: 0 < i < |results| ==> results[i] == results[1..][i - 1] && nodes[i] == nodes[1..][i - 1];
    }
  }

  lemma {:induction false} ItemsAreTrees(items: seq<Value>, depth: nat, nodes: seq<Json>)
    requires EncodeAll(items, depth) == Success(nodes)
    ensures AreTreesOf(items, nodes)
    decreases items, 0
  {
    var results := seq(|items|, i requires 0 <= i < |items| => Encode(items[i], depth));
    CollectMeans(results, nodes);
    forall i | 0 <= i < |items|
      ensures IsTreeOf(items[i], nodes[i])
    {
      assert results[i] == Success(nodes[i]);
      EncodedIsTree(items[i], depth, nodes[i]);
    }
  }

  lemma {:induction false} EntriesAreTrees(v: Value, keys: seq<string>, depth: nat, nodes: seq<Json>)
    requires v.Dict? && keys == Order.Sorted(v.entries.Keys) && "" !in v.entries
    requires EncodeEntries(v.entries, keys, depth) == Success(nodes)
    ensures AreEntriesOf(v, v.entries, keys, nodes)
    decreases v, 0
  {
    var results := seq(|keys|, i requires 0 <= i < |keys| => EncodeEntry(keys[i], Encode(v.entries[keys[i]], depth)));
    CollectMeans(results, nodes);
    forall i | 0 <= i < |keys|
      ensures keys[i] in v.entries && IsEntryOf(v.entries[keys[i]], keys[i], nodes[i])
    {
      assert results[i] == Success(nodes[i]);
      EntryIsTree(v.entries[keys[i]], keys[i], depth, nodes[i]);
    }
  }

  lemma {:induction false} EntryIsTree(value: Value, key: string, depth: nat, node: Json)
    requires EncodeEntry(key, Encode(value, depth)) == Success(node)
    ensures IsEntryOf(value, key, node)
    decreases value, 3
  {
    EncodedIsTree(value, depth, Encode(value, depth).value);
  }

  lemma SequenceTree(v: Value, nodes: seq<Json>)
    requires (v.Tuple? || v.List?) && AreTreesOf(v.items, nodes)
    ensures IsTreeOf(v, Branch(if v.Tuple? then "tuple" else "list", nodes))
  {
    assert IsNode(Branch(if v.Tuple? then "tuple" else "list", nodes), if v.Tuple? then "tuple" else "list", "items", JList(nodes));
  }

  lemma MapTree(v: Value, keys: seq<string>, nodes: seq<Json>)
    requires v.Dict? && AreEntriesOf(v, v.entries, keys, nodes)
    ensures IsTreeOf(v, Branch("map", nodes))
  {
    assert IsNode(Branch("map", nodes), "map", "items", JList(nodes));
  }

  lemma LeafTree(v: Value, depth: nat, node: Json)
    requires Encode(v, depth) == Success(node) && !v.Tuple? && !v.List? && !v.Dict?
    ensures IsTreeOf(v, node)
  {
  }

  lemma {:induction false} SequenceIsTree(v: Value, depth: nat) returns (nodes: seq<Json>)
    requires (v.Tuple? || v.List?) && Encode(v, depth).Success?
    ensures Encode(v, depth).value == Branch(if v.Tuple? then "tuple" else "list", nodes) && AreTreesOf(v.items, nodes)
    decreases v, 1
  {
    nodes := EncodedSequence(v, depth);
    ItemsAreTrees(v.items, depth + 1, nodes);
  }

  lemma {:induction false} MapIsTree(v: Value, depth: nat) returns (keys: seq<string>, nodes: seq<Json>)
    requires v.Dict? && Encode(v, depth).Success?
    ensures Encode(v, depth).value == Branch("map", nodes) && AreEntriesOf(v, v.entries, keys, nodes)
    decreases v, 1
  {
    keys := Order.Sorted(v.entries.Keys);
    nodes := EncodedMap(v, depth, keys);
    EntriesAreTrees(v, keys, depth + 1, nodes);
  }

  /** What the encoder writes, node by node. */
  lemma {:induction false} EncodedIsTree(v: Value, depth: nat, node: Json)
    requires Encode(v, depth) == Success(node)
    ensures IsTreeOf(v, node)
    decreases v, 2
  {
    if v.Tuple? || v.List? {
      var nodes := SequenceIsTree(v, depth);
      SequenceTree(v, nodes);
    } else if v.Dict? {
      var keys, nodes := MapIsTree(v, depth);
      MapTree(v, keys, nodes);
    } else {
      LeafTree(v, depth, node);
    }
  }

  // ---------- plans ----------

  ghost predicate IsHead(head: P.Head, wire: Json) {
    exists names: seq<Json> ::
      && wire == JObject(map["target_pred_id" := JText(head.target), "head_var_names" := JList(names)])
      && |names| == |head.variables| && forall i :: 0 <= i < |names| ==> names[i] == JText(head.variables[i])
  }

  ghost predicate IsPlan(plan: P.Plan, body: Json, heads: seq<Json>, wire: Json) {
    && IsTreeOf(List(plan.body), body)
    && |heads| == |plan.heads| && (forall i :: 0 <= i < |heads| ==> IsHead(plan.heads[i], heads[i]))
    && wire == JObject(map["$type" := JText("FactGraphCompiledDerivationPlanV1"), "derivation_id" := JText(plan.derivationId),
                           "version" := JText(plan.version), "body_ir" := body, "heads" := JList(heads)])
  }

  lemma HeadIsWritten(head: P.Head)
    ensures IsHead(head, P.HeadWire(head))
  {
    assert P.HeadWire(head).fields["head_var_names"] == P.TextList(head.variables);
    assert P.HeadWire(head)
        == JObject(map["target_pred_id" := JText(head.target), "head_var_names" := JList(P.TextList(head.variables).items)]);
  }

  /** What a sealed plan holds: its identity, its body as a tree, and its head with the names of its variables. */
  lemma PlanIsWritten(plan: P.Plan, valid: P.Plan -> bool, wire: Json)
    requires P.PlanWire(plan, valid) == Success(wire)
    ensures exists body, heads :: IsPlan(plan, body, heads, wire)
  {
    var body := Encode(List(plan.body), 0).value;
    EncodedIsTree(List(plan.body), 0, body);
    var heads := P.HeadWires(plan.heads);
    forall i | 0 <= i < |heads|
      ensures IsHead(plan.heads[i], heads[i])
    {
      HeadIsWritten(plan.heads[i]);
    }
    assert IsPlan(plan, body, heads, wire);
  }
}
