/**
 The structural codec is exact: decoding undoes encoding for every value within the limits, every
 accepted tree is the encoding of its value, and the budget falls by exactly the number of nodes.
 */
module CodecExactness {
  import opened Wrappers
  import B = Base64Url
  import Order = StringOrder
  import opened StructuralCodec

  // ---------- size and depth of a value ----------

  function Nodes(v: Value): nat
    decreases v
  {
    match v
    case Tuple(items) => 1 + NodesAll(items)
    case List(items) => 1 + NodesAll(items)
    case Dict(entries) => 1 + NodesAt(v, Order.Sorted(entries.Keys))
    case _ => 1
  }

  function NodesAll(items: seq<Value>): nat
    decreases items
  {
    if items == [] then 0 else Nodes(items[0]) + NodesAll(items[1..])
  }

  function NodesAt(v: Value, keys: seq<string>): nat
    requires v.Dict? && forall k :: k in keys ==> k in v.entries
    decreases v, |keys|
  {
    if keys == [] then 0 else Nodes(v.entries[keys[0]]) + NodesAt(v, keys[1..])
  }

  // ---------- lists of encodings ----------

  function EncodeAll(items: seq<Value>, depth: nat): Result<seq<Json>, CodecError> {
    Collect(seq(|items|, i requires 0 <= i < |items| => Encode(items[i], depth)))
  }

  function EncodeEntries(entries: map<string, Value>, keys: seq<string>, depth: nat): Result<seq<Json>, CodecError>
    requires forall k :: k in keys ==> k in entries
  {
    Collect(seq(|keys|, i requires 0 <= i < |keys| => EncodeEntry(keys[i], Encode(entries[keys[i]], depth))))
  }

  lemma EncodeAllCons(items: seq<Value>, depth: nat)
    requires items != []
    ensures EncodeAll(items, depth).Success? <==> Encode(items[0], depth).Success? && EncodeAll(items[1..], depth).Success?
    ensures EncodeAll(items, depth).Success? ==>
      EncodeAll(items, depth).value == [Encode(items[0], depth).value] + EncodeAll(items[1..], depth).value
  {
    var all := seq(|items|, i requires 0 <= i < |items| => Encode(items[i], depth));
    assert all[1..] == seq(|items[1..]|, i requires 0 <= i < |items[1..]| => Encode(items[1..][i], depth));
  }

  lemma EncodeEntriesCons(entries: map<string, Value>, keys: seq<string>, depth: nat)
    requires keys != [] && forall k :: k in keys ==> k in entries
    ensures var first := Encode(entries[keys[0]], depth);
      && (EncodeEntries(entries, keys, depth).Success? <==> first.Success? && EncodeEntries(entries, keys[1..], depth).Success?)
      && (EncodeEntries(entries, keys, depth).Success? ==>
            EncodeEntries(entries, keys, depth).value
              == [Entry(keys[0], first.value)] + EncodeEntries(entries, keys[1..], depth).value)
  {
    var all := seq(|keys|, i requires 0 <= i < |keys| => EncodeEntry(keys[i], Encode(entries[keys[i]], depth)));
    assert all[1..] == seq(|keys[1..]|, i requires 0 <= i < |keys[1..]| =>
                             EncodeEntry(keys[1..][i], Encode(entries[keys[1..][i]], depth)));
  }

  // ---------- decoding undoes encoding ----------

  lemma DecodeLeafNode(kind: string, value: Json, depth: nat, budget: int)
    requires depth <= MAX_DEPTH && kind in {"scalar", "float64", "bytes"}
    ensures budget >= 1 ==> Decode(Leaf(kind, value), depth, budget) == (DecodeLeaf(kind, value), budget - 1)
    ensures budget < 1 ==> Decode(Leaf(kind, value), depth, budget).0.Failure?
  {
  }

  lemma DecodeSequenceNode(kind: string, nodes: seq<Json>, depth: nat, budget: int)
    requires depth <= MAX_DEPTH && kind in {"tuple", "list"}
    ensures budget < 1 ==> Decode(Branch(kind, nodes), depth, budget).0.Failure?
    ensures budget >= 1 ==>
      var (items, left) := DecodeItems(nodes, depth + 1, budget - 1);
      Decode(Branch(kind, nodes), depth, budget)
        == (if items.Failure? then Failure(items.error)
            else if kind == "tuple" then Success(Tuple(items.value)) else Success(List(items.value)), left)
  {
    var fields := Branch(kind, nodes).fields;
    assert Kind(fields) == kind && Exactly(fields, "items") && !Exactly(fields, "value");
  }

  lemma DecodeMapNode(nodes: seq<Json>, depth: nat, budget: int)
    requires depth <= MAX_DEPTH
    ensures budget < 1 ==> Decode(Branch("map", nodes), depth, budget).0.Failure?
    ensures budget >= 1 ==>
      var (entries, left) := DecodeEntries(nodes, "", depth + 1, budget - 1);
      Decode(Branch("map", nodes), depth, budget)
        == (if entries.Success? then Success(Dict(entries.value)) else Failure(entries.error), left)
  {
    var fields := Branch("map", nodes).fields;
    assert Kind(fields) == "map" && Exactly(fields, "items") && !Exactly(fields, "value");
  }

  lemma RoundTripLeaf(v: Value, depth: nat, budget: int)
    requires Encode(v, depth).Success? && !v.Tuple? && !v.List? && !v.Dict?
    ensures budget >= 1 ==> Decode(Encode(v, depth).value, depth, budget) == (Success(v), budget - 1)
    ensures budget < 1 ==> Decode(Encode(v, depth).value, depth, budget).0.Failure?
  {
    match v
    case Null => DecodeLeafNode("scalar", JNull, depth, budget);
    case Flag(b) => DecodeLeafNode("scalar", JBool(b), depth, budget);
    case Int(n) => DecodeLeafNode("scalar", JInt(n), depth, budget);
    case Text(s) => DecodeLeafNode("scalar", JText(s), depth, budget);
    case Float(hex) => DecodeLeafNode("float64", JText(hex), depth, budget);
    case Bytes(bytes) =>
      B.RoundTrip(bytes);
      DecodeLeafNode("bytes", JText(B.Encode(bytes)), depth, budget);
  }

  // What the round trip of a node means: the value comes back if the budget covers its nodes.
  predicate Returns<T(==)>(decoded: Decoded<T>, value: T, nodes: nat, budget: int) {
    if budget >= nodes then decoded == (Success(value), budget - nodes) else decoded.0.Failure?
  }

  lemma RoundTripSequence(v: Value, nodes: seq<Json>, depth: nat, budget: int)
    requires depth <= MAX_DEPTH && (v.Tuple? || v.List?)
    requires budget >= 1 ==> Returns(DecodeItems(nodes, depth + 1, budget - 1), v.items, NodesAll(v.items), budget - 1)
    ensures Returns(Decode(Branch(if v.Tuple? then "tuple" else "list", nodes), depth, budget), v, Nodes(v), budget)
  {
    DecodeSequenceNode(if v.Tuple? then "tuple" else "list", nodes, depth, budget);
  }

  lemma RoundTripMap(entries: map<string, Value>, count: nat, nodes: seq<Json>, depth: nat, budget: int)
    requires depth <= MAX_DEPTH
    requires budget >= 1 ==> Returns(DecodeEntries(nodes, "", depth + 1, budget - 1), entries, count, budget - 1)
    ensures Returns(Decode(Branch("map", nodes), depth, budget), Dict(entries), 1 + count, budget)
  {
    DecodeMapNode(nodes, depth, budget);
  }

  lemma EncodedSequence(v: Value, depth: nat) returns (nodes: seq<Json>)
    requires Encode(v, depth).Success? && (v.Tuple? || v.List?)
    ensures depth <= MAX_DEPTH && EncodeAll(v.items, depth + 1) == Success(nodes)
    ensures Encode(v, depth).value == Branch(if v.Tuple? then "tuple" else "list", nodes)
  {
    nodes := EncodeAll(v.items, depth + 1).value;
  }

  lemma EncodedMap(v: Value, depth: nat, keys: seq<string>) returns (nodes: seq<Json>)
    requires Encode(v, depth).Success? && v.Dict? && keys == Order.Sorted(v.entries.Keys)
    ensures depth <= MAX_DEPTH && "" !in v.entries && EncodeEntries(v.entries, keys, depth + 1) == Success(nodes)
    ensures Encode(v, depth).value == Branch("map", nodes)
  {
    nodes := EncodeEntries(v.entries, keys, depth + 1).value;
  }

  lemma RoundTripDict(v: Value, keys: seq<string>, nodes: seq<Json>, depth: nat, budget: int)
    requires v.Dict? && "" !in v.entries && keys == Order.Sorted(v.entries.Keys)
    requires depth <= MAX_DEPTH && EncodeEntries(v.entries, keys, depth + 1) == Success(nodes)
    ensures Returns(Decode(Branch("map", nodes), depth, budget), v, 1 + NodesAt(v, keys), budget)
    decreases v, |keys| + 1
  {
    if budget >= 1 {
      RoundTripEntries(v, keys, "", depth + 1, budget - 1);
      assert Selected(v.entries, keys) == v.entries;
    }
    RoundTripMap(v.entries, NodesAt(v, keys), nodes, depth, budget);
  }

  lemma RoundTripItemsNode(v: Value, nodes: seq<Json>, depth: nat, budget: int)
    requires (v.Tuple? || v.List?) && depth <= MAX_DEPTH && EncodeAll(v.items, depth + 1) == Success(nodes)
    ensures Returns(Decode(Branch(if v.Tuple? then "tuple" else "list", nodes), depth, budget), v, Nodes(v), budget)
    decreases v, 0
  {
    if budget >= 1 {
      RoundTripItems(v.items, depth + 1, budget - 1);
    }
    RoundTripSequence(v, nodes, depth, budget);
  }

  /** Decoding an encoding gives the value back and costs its nodes; with fewer nodes left it fails. */
  lemma {:induction false} RoundTrip(v: Value, depth: nat, budget: int)
    requires Encode(v, depth).Success?
    ensures Returns(Decode(Encode(v, depth).value, depth, budget), v, Nodes(v), budget)
    decreases v
  {
    if v.Tuple? || v.List? {
      var nodes := EncodedSequence(v, depth);
      RoundTripItemsNode(v, nodes, depth, budget);
    } else if v.Dict? {
      var keys := Order.Sorted(v.entries.Keys);
      var nodes := EncodedMap(v, depth, keys);
      RoundTripDict(v, keys, nodes, depth, budget);
    } else {
      RoundTripLeaf(v, depth, budget);
    }
  }

  lemma DecodeItemsCons(node: Json, nodes: seq<Json>, depth: nat, budget: int)
    ensures var (first, left) := Decode(node, depth, budget);
            var (rest, end) := DecodeItems(nodes, depth, left);
      DecodeItems([node] + nodes, depth, budget)
        == if first.Failure? then (Failure(first.error), left)
           else (if rest.Failure? then rest else Success([first.value] + rest.value), end)
  {
    assert ([node] + nodes)[1..] == nodes;
  }

  lemma {:induction false} RoundTripItems(items: seq<Value>, depth: nat, budget: nat)
    requires EncodeAll(items, depth).Success?
    ensures Returns(DecodeItems(EncodeAll(items, depth).value, depth, budget), items, NodesAll(items), budget)
    decreases items
  {
    if items == [] {
      assert EncodeAll(items, depth).value == [];
    } else {
      EncodeAllCons(items, depth);
      RoundTrip(items[0], depth, budget);
      DecodeItemsCons(Encode(items[0], depth).value, EncodeAll(items[1..], depth).value, depth, budget);
      if budget >= Nodes(items[0]) {
        RoundTripItems(items[1..], depth, budget - Nodes(items[0]));
        assert items == [items[0]] + items[1..];
      }
    }
  }

  // The part of a dictionary that the given keys select.
  function Selected(entries: map<string, Value>, keys: seq<string>): map<string, Value>
    requires forall k :: k in keys ==> k in entries
  {
    map k | k in keys :: entries[k]
  }

  lemma SelectedCons(entries: map<string, Value>, keys: seq<string>)
    requires keys != [] && Order.Ascending(keys) && forall k :: k in keys ==> k in entries
    ensures Selected(entries, keys) == map[keys[0] := entries[keys[0]]] + Selected(entries, keys[1..])
  {
    Order.AscendingTail(keys);
    assert forall k :: k in keys <==> k == keys[0] || k in keys[1..];
  }

  lemma DecodeEntriesCons(key: string, node: Json, nodes: seq<Json>, previous: string, depth: nat, budget: int)
    requires key != "" && Order.Less(previous, key)
    ensures var (first, left) := Decode(node, depth, budget);
            var (rest, end) := DecodeEntries(nodes, key, depth, left);
      DecodeEntries([Entry(key, node)] + nodes, previous, depth, budget)
        == if first.Failure? then (Failure(first.error), left)
           else (if rest.Failure? then rest else Success(map[key := first.value] + rest.value), end)
  {
    assert ([Entry(key, node)] + nodes)[1..] == nodes;
  }

  lemma {:induction false} RoundTripEntries(v: Value, keys: seq<string>, previous: string, depth: nat, budget: nat)
    requires v.Dict? && "" !in v.entries && Order.Ascending(keys)
    requires forall k :: k in keys ==> k in v.entries && Order.Less(previous, k)
    requires EncodeEntries(v.entries, keys, depth).Success?
    ensures Returns(DecodeEntries(EncodeEntries(v.entries, keys, depth).value, previous, depth, budget),
                    Selected(v.entries, keys), NodesAt(v, keys), budget)
    decreases v, |keys|
  {
    if keys == [] {
      assert EncodeEntries(v.entries, keys, depth).value == [];
      assert Selected(v.entries, keys) == map[];
    } else {
      var key := keys[0];
      EncodeEntriesCons(v.entries, keys, depth);
      RoundTrip(v.entries[key], depth, budget);
      DecodeEntriesCons(key, Encode(v.entries[key], depth).value, EncodeEntries(v.entries, keys[1..], depth).value,
                        previous, depth, budget);
      if budget >= Nodes(v.entries[key]) {
        Order.AscendingTail(keys);
        SelectedCons(v.entries, keys);
        RoundTripEntries(v, keys[1..], key, depth, budget - Nodes(v.entries[key]));
      }
    }
  }

  // ---------- accepted trees are encodings ----------

  // An accepted result re-encodes to the tree it came from, at the cost of its nodes.
  predicate Reencodes(node: Json, depth: nat, budget: int, value: Value, left: int) {
    Encode(value, depth) == Success(node) && 0 <= left == budget - Nodes(value)
  }

  lemma LeafFields(fields: map<string, Json>)
    requires "$type" in fields && fields["$type"] == JText(VALUE_TYPE)
    requires Kind(fields) != "" && Exactly(fields, "value")
    ensures JObject(fields) == Leaf(Kind(fields), fields["value"])
  {
    var leaf := Leaf(Kind(fields), fields["value"]).fields;
    assert leaf.Keys == {"$type", "kind", "value"};
    forall k | k in fields
      ensures fields[k] == leaf[k]
    {
      assert k == "$type" || k == "kind" || k == "value";
    }
    assert fields == leaf;
  }

  lemma BranchFields(fields: map<string, Json>)
    requires "$type" in fields && fields["$type"] == JText(VALUE_TYPE)
    requires Kind(fields) != "" && Exactly(fields, "items") && fields["items"].JList?
    ensures JObject(fields) == Branch(Kind(fields), fields["items"].items)
  {
    var branch := Branch(Kind(fields), fields["items"].items).fields;
    assert branch.Keys == {"$type", "kind", "items"};
    forall k | k in fields
      ensures fields[k] == branch[k]
    {
      assert k == "$type" || k == "kind" || k == "items";
    }
    assert fields == branch;
  }

  lemma LeafReencodes(kind: string, value: Json, depth: nat)
    requires depth <= MAX_DEPTH && kind in {"scalar", "float64", "bytes"} && DecodeLeaf(kind, value).Success?
    ensures Encode(DecodeLeaf(kind, value).value, depth) == Success(Leaf(kind, value))
    ensures Nodes(DecodeLeaf(kind, value).value) == 1
  {
    if kind == "bytes" {
      B.AcceptedIsEncoding(value.s);
    }
  }

  lemma ItemsReencodeCons(node: Json, items: seq<Json>, depth: nat, first: Value, values: seq<Value>)
    requires Encode(first, depth) == Success(node) && EncodeAll(values, depth) == Success(items)
    ensures EncodeAll([first] + values, depth) == Success([node] + items)
    ensures NodesAll([first] + values) == Nodes(first) + NodesAll(values)
  {
    assert ([first] + values)[1..] == values;
    EncodeAllCons([first] + values, depth);
  }

  lemma {:induction false} ItemsReencode(items: seq<Json>, depth: nat, budget: nat)
    requires DecodeItems(items, depth, budget).0.Success?
    ensures var (values, left) := DecodeItems(items, depth, budget);
      EncodeAll(values.value, depth) == Success(items) && 0 <= left == budget - NodesAll(values.value)
    decreases items
  {
    if items == [] {
      var none: seq<Value> := [];
      assert EncodeAll(none, depth) == Success([]);
    } else {
      var (first, left) := Decode(items[0], depth, budget);
      AcceptedReencodes(items[0], depth, budget);
      ItemsReencode(items[1..], depth, left);
      ItemsReencodeCons(items[0], items[1..], depth, first.value, DecodeItems(items[1..], depth, left).0.value);
      assert items == [items[0]] + items[1..];
    }
  }

  // The keys of map items, in order.
  function KeysOf(items: seq<Json>): seq<string>
    requires forall i :: 0 <= i < |items| ==> IsEntry(items[i])
  {
    seq(|items|, i requires 0 <= i < |items| && IsEntry(items[i]) => items[i].items[0].s)
  }

  lemma EntriesAgree(m: map<string, Value>, n: map<string, Value>, keys: seq<string>, depth: nat)
    requires forall k :: k in keys ==> k in m && k in n && m[k] == n[k]
    ensures EncodeEntries(m, keys, depth) == EncodeEntries(n, keys, depth)
  {
    assert seq(|keys|, i requires 0 <= i < |keys| => EncodeEntry(keys[i], Encode(m[keys[i]], depth)))
        == seq(|keys|, i requires 0 <= i < |keys| => EncodeEntry(keys[i], Encode(n[keys[i]], depth)));
  }

  lemma {:induction false} NodesAgree(v: Value, w: Value, keys: seq<string>)
    requires v.Dict? && w.Dict?
    requires forall k :: k in keys ==> k in v.entries && k in w.entries && v.entries[k] == w.entries[k]
    ensures NodesAt(v, keys) == NodesAt(w, keys)
    decreases |keys|
  {
    if keys != [] {
      NodesAgree(v, w, keys[1..]);
    }
  }

  // What accepting map items means: ascending keys above the previous one, and entries that encode back.
  ghost predicate EntriesBack(items: seq<Json>, previous: string, depth: nat, budget: int,
                              entries: map<string, Value>, left: int) {
    && (forall i :: 0 <= i < |items| ==> IsEntry(items[i]))
    && var keys := KeysOf(items);
    && Order.Ascending(keys)
    && (forall k :: k in keys <==> k in entries)
    && (forall k :: k in keys ==> Order.Less(previous, k))
    && EncodeEntries(entries, keys, depth) == Success(items)
    && 0 <= left == budget - NodesAt(Dict(entries), keys)
  }

  lemma KeysOfCons(item: Json, rest: seq<Json>)
    requires IsEntry(item) && forall i :: 0 <= i < |rest| ==> IsEntry(rest[i])
    ensures forall i :: 0 <= i < |rest| + 1 ==> IsEntry(([item] + rest)[i])
    ensures KeysOf([item] + rest) == [item.items[0].s] + KeysOf(rest)
    ensures item == Entry(item.items[0].s, item.items[1])
  {
    assert item.items == [item.items[0], item.items[1]];
  }

  lemma AscendingCons(key: string, keys: seq<string>, previous: string)
    requires Order.Ascending(keys) && Order.Less(previous, key) && forall k :: k in keys ==> Order.Less(key, k)
    ensures Order.Ascending([key] + keys) && key !in keys
    ensures forall k :: k in [key] + keys ==> Order.Less(previous, k)
  {
    forall k | k in keys
      ensures Order.Less(previous, k) && k != key
    {
      Order.LessTransitive(previous, key, k);
      Order.LessAsymmetric(key, k);
    }
  }

  lemma EncodingsCons(key: string, first: Value, node: Json, keys: seq<string>, entries: map<string, Value>,
                      rest: seq<Json>, depth: nat)
    requires key !in keys && (forall k :: k in keys <==> k in entries)
    requires Encode(first, depth) == Success(node) && EncodeEntries(entries, keys, depth) == Success(rest)
    ensures var all := map[key := first] + entries;
      && EncodeEntries(all, [key] + keys, depth) == Success([Entry(key, node)] + rest)
      && NodesAt(Dict(all), [key] + keys) == Nodes(first) + NodesAt(Dict(entries), keys)
  {
    var all := map[key := first] + entries;
    assert ([key] + keys)[1..] == keys;
    EntriesAgree(entries, all, keys, depth);
    NodesAgree(Dict(entries), Dict(all), keys);
    EncodeEntriesCons(all, [key] + keys, depth);
  }

  lemma EntriesBackCons(item: Json, rest: seq<Json>, previous: string, depth: nat, budget: int,
                        first: Value, middle: int, entries: map<string, Value>, left: int)
    requires IsEntry(item) && Order.Less(previous, item.items[0].s)
    requires Reencodes(item.items[1], depth, budget, first, middle)
    requires EntriesBack(rest, item.items[0].s, depth, middle, entries, left)
    ensures EntriesBack([item] + rest, previous, depth, budget, map[item.items[0].s := first] + entries, left)
  {
    KeysOfCons(item, rest);
    AscendingCons(item.items[0].s, KeysOf(rest), previous);
    EncodingsCons(item.items[0].s, first, item.items[1], KeysOf(rest), entries, rest, depth);
  }

  lemma {:induction false} EntriesReencode(items: seq<Json>, previous: string, depth: nat, budget: nat)
    requires DecodeEntries(items, previous, depth, budget).0.Success?
    ensures var (entries, left) := DecodeEntries(items, previous, depth, budget);
      EntriesBack(items, previous, depth, budget, entries.value, left)
    decreases items
  {
    if items == [] {
      var none: map<string, Value> := map[];
      assert KeysOf(items) == [];
      assert EncodeEntries(none, [], depth) == Success([]);
    } else {
      var key := items[0].items[0].s;
      var (first, middle) := Decode(items[0].items[1], depth, budget);
      AcceptedReencodes(items[0].items[1], depth, budget);
      EntriesReencode(items[1..], key, depth, middle);
      var (entries, left) := DecodeEntries(items[1..], key, depth, middle);
      EntriesBackCons(items[0], items[1..], previous, depth, budget, first.value, middle, entries.value, left);
      assert items == [items[0]] + items[1..];
    }
  }

  lemma MapReencodes(items: seq<Json>, entries: map<string, Value>, depth: nat, budget: int, left: int)
    requires depth <= MAX_DEPTH && EntriesBack(items, "", depth + 1, budget - 1, entries, left)
    ensures Reencodes(Branch("map", items), depth, budget, Dict(entries), left)
  {
    var keys := KeysOf(items);
    Order.AscendingUnique(keys, Order.Sorted(entries.Keys));
    if "" in keys {
      Order.LessIrreflexive("");
    }
    assert EncodeEntries(entries, keys, depth + 1) == Success(items);
  }

  lemma SequenceReencodes(v: Value, items: seq<Json>, depth: nat, budget: int, left: int)
    requires depth <= MAX_DEPTH && (v.Tuple? || v.List?)
    requires EncodeAll(v.items, depth + 1) == Success(items) && 0 <= left == budget - 1 - NodesAll(v.items)
    ensures Reencodes(Branch(if v.Tuple? then "tuple" else "list", items), depth, budget, v, left)
  {
  }

  /** Whatever the decoder accepts is the encoding of the value it returns. */
  lemma {:induction false} AcceptedReencodes(node: Json, depth: nat, budget: int)
    requires Decode(node, depth, budget).0.Success?
    ensures Reencodes(node, depth, budget, Decode(node, depth, budget).0.value, Decode(node, depth, budget).1)
    decreases node
  {
    var fields, kind := node.fields, Kind(node.fields);
    if Exactly(fields, "value") {
      LeafFields(fields);
      LeafReencodes(kind, fields["value"], depth);
    } else {
      BranchFields(fields);
      AcceptedBranch(node, kind, fields["items"].items, depth, budget);
    }
  }

  lemma AcceptedBranch(node: Json, kind: string, items: seq<Json>, depth: nat, budget: int)
    requires node == Branch(kind, items) && kind in {"tuple", "list", "map"}
    requires depth <= MAX_DEPTH && budget >= 1 && Decode(node, depth, budget).0.Success?
    ensures Reencodes(node, depth, budget, Decode(node, depth, budget).0.value, Decode(node, depth, budget).1)
    decreases node, 0
  {
    if kind == "map" {
      DecodeMapNode(items, depth, budget);
      EntriesReencode(items, "", depth + 1, budget - 1);
      var (entries, left) := DecodeEntries(items, "", depth + 1, budget - 1);
      MapReencodes(items, entries.value, depth, budget, left);
    } else {
      DecodeSequenceNode(kind, items, depth, budget);
      ItemsReencode(items, depth + 1, budget - 1);
      var (values, left) := DecodeItems(items, depth + 1, budget - 1);
      SequenceReencodes(if kind == "tuple" then Tuple(values.value) else List(values.value), items, depth, budget, left);
    }
  }

  // ---------- what can be encoded ----------

  function Max(a: nat, b: nat): nat {
    if a < b then b else a
  }

  // How far a value nests; a leaf and an empty collection do not.
  function Depth(v: Value): nat
    decreases v
  {
    match v
    case Tuple(items) => DepthAll(items)
    case List(items) => DepthAll(items)
    case Dict(entries) => DepthAt(v, Order.Sorted(entries.Keys))
    case _ => 0
  }

  function DepthAll(items: seq<Value>): nat
    decreases items
  {
    if items == [] then 0 else Max(1 + Depth(items[0]), DepthAll(items[1..]))
  }

  function DepthAt(v: Value, keys: seq<string>): nat
    requires v.Dict? && forall k :: k in keys ==> k in v.entries
    decreases v, |keys|
  {
    if keys == [] then 0 else Max(1 + Depth(v.entries[keys[0]]), DepthAt(v, keys[1..]))
  }

  // Finite numbers and non-empty keys throughout.
  predicate Plain(v: Value)
    decreases v
  {
    match v
    case Tuple(items) => forall i :: 0 <= i < |items| ==> Plain(items[i])
    case List(items) => forall i :: 0 <= i < |items| ==> Plain(items[i])
    case Dict(entries) => "" !in entries && forall k :: k in entries ==> Plain(entries[k])
    case NonFinite => false
    case Unsupported(_) => false
    case _ => true
  }

  /** Exactly the plain values that nest no deeper than the limit can be encoded. */
  lemma {:induction false} Encodable(v: Value, depth: nat)
    ensures Encode(v, depth).Success? <==> Plain(v) && depth + Depth(v) <= 64
    decreases v
  {
    if depth <= MAX_DEPTH {
      match v
      case Tuple(items) => EncodableItems(items, depth);
      case List(items) => EncodableItems(items, depth);
      case Dict(entries) => EncodableAt(v, Order.Sorted(entries.Keys), depth);
      case _ =>
    }
  }

  ghost predicate AllPlain(items: seq<Value>) {
    forall i :: 0 <= i < |items| ==> Plain(items[i])
  }

  lemma AllPlainCons(items: seq<Value>)
    requires items != []
    ensures AllPlain(items) <==> Plain(items[0]) && AllPlain(items[1..])
  {
    assert forall i :: 0 <= i < |items| ==> items[i] == if i == 0 then items[0] else items[1..][i - 1];
  }

  lemma {:induction false} EncodableItems(items: seq<Value>, depth: nat)
    requires depth <= MAX_DEPTH
    ensures EncodeAll(items, depth + 1).Success? <==> AllPlain(items) && depth + DepthAll(items) <= MAX_DEPTH
    decreases items
  {
    if items != [] {
      Encodable(items[0], depth + 1);
      EncodableItems(items[1..], depth);
      EncodeAllCons(items, depth + 1);
      AllPlainCons(items);
    }
  }

  lemma {:induction false} EncodableAt(v: Value, keys: seq<string>, depth: nat)
    requires v.Dict? && (forall k :: k in keys ==> k in v.entries) && depth <= MAX_DEPTH
    ensures EncodeEntries(v.entries, keys, depth + 1).Success?
      <==> (forall k :: k in keys ==> Plain(v.entries[k])) && depth + DepthAt(v, keys) <= MAX_DEPTH
    decreases v, |keys|
  {
    if keys != [] {
      EncodeEntriesCons(v.entries, keys, depth + 1);
      Encodable(v.entries[keys[0]], depth + 1);
      EncodableAt(v, keys[1..], depth);
      assert forall k :: k in keys <==> k == keys[0] || k in keys[1..];
    }
  }

  // ---------- exactness ----------

  function DecodeProgram(node: Json): Result<Value, CodecError> {
    Decode(node, 0, MAX_NODES).0
  }

  /** A plain value within the depth limit survives, exactly when it has no more than the allowed nodes. */
  lemma ValueSurvives(v: Value)
    requires Plain(v) && Depth(v) <= 64
    ensures Encode(v, 0).Success?
    ensures if Nodes(v) <= 100_000 then DecodeProgram(Encode(v, 0).value) == Success(v)
            else DecodeProgram(Encode(v, 0).value).Failure?
  {
    Encodable(v, 0);
    RoundTrip(v, 0, MAX_NODES);
  }

  /** An accepted tree re-encodes to itself and uses exactly its nodes of the budget. */
  lemma TreeSurvives(node: Json)
    requires DecodeProgram(node).Success?
    ensures Encode(DecodeProgram(node).value, 0) == Success(node)
    ensures Nodes(DecodeProgram(node).value) == 100_000 - Decode(node, 0, 100_000).1 <= 100_000
  {
    AcceptedReencodes(node, 0, MAX_NODES);
  }

  /** No two trees decode to one value. */
  lemma OneTreePerValue(a: Json, b: Json)
    requires DecodeProgram(a).Success? && DecodeProgram(a) == DecodeProgram(b)
    ensures a == b
  {
    TreeSurvives(a);
    TreeSurvives(b);
  }
}
