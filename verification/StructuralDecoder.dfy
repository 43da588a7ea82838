/** The structural decoder as it runs: one budget object, counted down by every node. */
module StructuralDecoder {
  import opened Wrappers
  import Order = StringOrder
  import opened StructuralCodec

  class Budget {
    var left: int

    constructor (nodes: int)
      ensures left == nodes
    {
      left := nodes;
    }
  }

  // A list decoded so far, and the nodes the rest of it leaves.
  function DecodedBehind(done: seq<Value>, rest: Decoded<seq<Value>>): Decoded<seq<Value>> {
    (Behind(done, rest.0), rest.1)
  }

  function Merged(done: map<string, Value>, rest: Decoded<map<string, Value>>): Decoded<map<string, Value>> {
    (if rest.0.Failure? then rest.0 else Success(done + rest.0.value), rest.1)
  }

  lemma MergedNothing(rest: Decoded<map<string, Value>>)
    ensures Merged(map[], rest) == rest
  {
    if rest.0.Success? {
      var none: map<string, Value> := map[];
      assert none + rest.0.value == rest.0.value;
    }
  }

  lemma MergedOne(done: map<string, Value>, key: string, item: Value, rest: Decoded<map<string, Value>>)
    ensures Merged(done[key := item], rest) == Merged(done, Merged(map[key := item], rest))
  {
    if rest.0.Success? {
      assert done[key := item] + rest.0.value == done + (map[key := item] + rest.0.value);
    }
  }

  method DecodeStructural(node: Json, depth: nat, budget: Budget) returns (r: Result<Value, CodecError>)
    modifies budget
    ensures (r, budget.left) == Decode(node, depth, old(budget.left))
    decreases node
  {
    if depth > MAX_DEPTH {
      return Failure(LimitExceeded);
    }
    budget.left := budget.left - 1;
    if budget.left < 0 {
      return Failure(LimitExceeded);
    }
    if !node.JObject? || "$type" !in node.fields || node.fields["$type"] != JText(VALUE_TYPE) {
      return Failure(ShapeInvalid);
    }
    var kind := Kind(node.fields);
    if kind in {"scalar", "float64", "bytes"} {
      if !Exactly(node.fields, "value") {
        return Failure(ShapeInvalid);
      }
      return DecodeLeaf(kind, node.fields["value"]);
    }
    if kind !in {"tuple", "list", "map"} || !Exactly(node.fields, "items") || !node.fields["items"].JList? {
      return Failure(ShapeInvalid);
    }
    if kind == "map" {
      var entries := DecodeMapItems(node.fields["items"].items, depth + 1, budget);
      r := if entries.Success? then Success(Dict(entries.value)) else Failure(entries.error);
    } else {
      var items := DecodeListItems(node.fields["items"].items, depth + 1, budget);
      r := if items.Failure? then Failure(items.error)
           else if kind == "tuple" then Success(Tuple(items.value)) else Success(List(items.value));
    }
  }

  method DecodeListItems(items: seq<Json>, depth: nat, budget: Budget) returns (r: Result<seq<Value>, CodecError>)
    modifies budget
    ensures (r, budget.left) == DecodeItems(items, depth, old(budget.left))
    decreases items
  {
    var decoded: seq<Value> := [];
    assert items[0..] == items;
    BehindNothing(DecodeItems(items, depth, budget.left).0);
    for i := 0 to |items|
      invariant DecodeItems(items, depth, old(budget.left)) == DecodedBehind(decoded, DecodeItems(items[i..], depth, budget.left))
    {
      assert items[i..][0] == items[i] && items[i..][1..] == items[i + 1..];
      var item := DecodeStructural(items[i], depth, budget);
      if item.Failure? {
        return Failure(item.error);
      }
      BehindOne(decoded, item.value, DecodeItems(items[i + 1..], depth, budget.left).0);
      decoded := decoded + [item.value];
    }
    assert items[|items|..] == [];
    ghost var nothing: seq<Value> := [];
    assert decoded + nothing == decoded;
    r := Success(decoded);
  }

  method DecodeMapItems(items: seq<Json>, depth: nat, budget: Budget) returns (r: Result<map<string, Value>, CodecError>)
    modifies budget
    ensures (r, budget.left) == DecodeEntries(items, "", depth, old(budget.left))
    decreases items
  {
    var decoded: map<string, Value> := map[];
    var previous := "";
    assert items[0..] == items;
    MergedNothing(DecodeEntries(items, "", depth, budget.left));
    for i := 0 to |items|
      invariant DecodeEntries(items, "", depth, old(budget.left))
             == Merged(decoded, DecodeEntries(items[i..], previous, depth, budget.left))
    {
      assert items[i..][0] == items[i] && items[i..][1..] == items[i + 1..];
      if !IsEntry(items[i]) || !Order.Less(previous, items[i].items[0].s) {
        return Failure(ShapeInvalid);
      }
      previous := items[i].items[0].s;
      var item := DecodeStructural(items[i].items[1], depth, budget);
      if item.Failure? {
        return Failure(item.error);
      }
      MergedOne(decoded, previous, item.value, DecodeEntries(items[i + 1..], previous, depth, budget.left));
      decoded := decoded[previous := item.value];
    }
    assert items[|items|..] == [];
    ghost var nothing: map<string, Value> := map[];
    assert decoded + nothing == decoded;
    r := Success(decoded);
  }

  /** A whole program: a fresh budget, and no root deeper than zero. */
  method DecodeRoot(node: Json) returns (r: Result<Value, CodecError>)
    ensures r == Decode(node, 0, MAX_NODES).0
  {
    var budget := new Budget(MAX_NODES);
    r := DecodeStructural(node, 0, budget);
  }
}
