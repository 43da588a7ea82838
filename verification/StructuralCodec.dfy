/**
 The tagged tree codec for compiled programs: values become tagged objects, and a decoder with a
 depth limit and a shared node budget accepts exactly the trees the encoder produces.
 */
module StructuralCodec {
  import opened Wrappers
  import B = Base64Url
  import Order = StringOrder

  const MAX_DEPTH: nat := 64
  const MAX_NODES: nat := 100_000
  const VALUE_TYPE := "FactGraphStructuralValueV1"

  datatype CodecError = LimitExceeded | ShapeInvalid

  // A parsed JSON document; a number with a fraction or an exponent is a float token.
  datatype Json =
    | JNull
    | JBool(b: bool)
    | JInt(n: int)
    | JFloat(token: string)
    | JText(s: string)
    | JList(items: seq<Json>)
    | JObject(fields: map<string, Json>)

  datatype Value =
    | Null
    | Flag(b: bool)
    | Int(n: int)
    | Text(s: string)
    | Float(hex: FloatText)
    | NonFinite
    | Bytes(bytes: seq<B.Byte>)
    | Tuple(items: seq<Value>)
    | List(items: seq<Value>)
    | Dict(entries: map<string, Value>)
    | Unsupported(typeName: string)

  // ---------- finite floats ----------

  predicate HexDigit(c: char) {
    '0' <= c <= '9' || 'a' <= c <= 'f'
  }

  // A decimal exponent without leading zeros.
  predicate DecimalUpTo(s: string, most: string) {
    && s != "" && (forall c :: c in s ==> '0' <= c <= '9')
    && (s[0] == '0' ==> s == "0")
    && (|s| < |most| || (|s| == |most| && !Order.Less(most, s)))
  }

  // The text of a positive double: zero, a subnormal number or a normal one.
  predicate Magnitude(s: string) {
    || s == "0x0.0p+0"
    || (&& |s| == 23 && s[..4] == "0x0." && s[17..] == "p-1022"
        && (forall c :: c in s[4..17] ==> HexDigit(c)) && s[4..17] != "0000000000000")
    || (&& |s| >= 20 && s[..4] == "0x1." && (forall c :: c in s[4..17] ==> HexDigit(c)) && s[17] == 'p'
        && ((s[18] == '+' && DecimalUpTo(s[19..], "1023"))
            || (s[18] == '-' && DecimalUpTo(s[19..], "1022") && s[19..] != "0")))
  }

  // A finite double is known by the one text its hexadecimal form has.
  predicate IsFloatText(s: string) {
    if s != "" && s[0] == '-' then Magnitude(s[1..]) else Magnitude(s)
  }

  type FloatText = s: string | IsFloatText(s) witness "0x0.0p+0"

  // ---------- encoding ----------

  function Leaf(kind: string, value: Json): Json {
    JObject(map["$type" := JText(VALUE_TYPE), "kind" := JText(kind), "value" := value])
  }

  function Branch(kind: string, items: seq<Json>): Json {
    JObject(map["$type" := JText(VALUE_TYPE), "kind" := JText(kind), "items" := JList(items)])
  }

  // The first error in order, or all the results.
  function Collect(results: seq<Result<Json, CodecError>>): Result<seq<Json>, CodecError> {
    if results == [] then Success([])
    else
      var first :- results[0];
      var rest :- Collect(results[1..]);
      Success([first] + rest)
  }

  function Entry(key: string, node: Json): Json {
    JList([JText(key), node])
  }

  function EncodeEntry(key: string, node: Result<Json, CodecError>): Result<Json, CodecError> {
    if node.Failure? then node else Success(Entry(key, node.value))
  }

  function Encode(v: Value, depth: nat): Result<Json, CodecError>
    decreases v
  {
    if depth > MAX_DEPTH then Failure(LimitExceeded)
    else
      match v
      case Null => Success(Leaf("scalar", JNull))
      case Flag(b) => Success(Leaf("scalar", JBool(b)))
      case Int(n) => Success(Leaf("scalar", JInt(n)))
      case Text(s) => Success(Leaf("scalar", JText(s)))
      case Float(hex) => Success(Leaf("float64", JText(hex)))
      case Bytes(bytes) => Success(Leaf("bytes", JText(B.Encode(bytes))))
      case Tuple(items) =>
        var nodes :- Collect(seq(|items|, i requires 0 <= i < |items| => Encode(items[i], depth + 1)));
        Success(Branch("tuple", nodes))
      case List(items) =>
        var nodes :- Collect(seq(|items|, i requires 0 <= i < |items| => Encode(items[i], depth + 1)));
        Success(Branch("list", nodes))
      case Dict(entries) =>
        if "" in entries then Failure(ShapeInvalid)
        else
          var keys := Order.Sorted(entries.Keys);
          var nodes :- Collect(seq(|keys|, i requires 0 <= i < |keys| =>
                                   EncodeEntry(keys[i], Encode(entries[keys[i]], depth + 1))));
          Success(Branch("map", nodes))
      case NonFinite => Failure(ShapeInvalid)
      case Unsupported(_) => Failure(ShapeInvalid)
  }

  // ---------- decoding ----------

  type Decoded<T> = (Result<T, CodecError>, int)

  function Kind(fields: map<string, Json>): string {
    if "kind" in fields && fields["kind"].JText? then fields["kind"].s else ""
  }

  predicate Exactly(fields: map<string, Json>, last: string) {
    fields.Keys == {"$type", "kind", last}
  }

  function DecodeLeaf(kind: string, value: Json): Result<Value, CodecError> {
    match kind
    case "scalar" =>
      (match value
       case JNull => Success(Null)
       case JBool(b) => Success(Flag(b))
       case JInt(n) => Success(Int(n))
       case JText(s) => Success(Text(s))
       case _ => Failure(ShapeInvalid))
    case "float64" =>
      if value.JText? && IsFloatText(value.s) then Success(Float(value.s)) else Failure(ShapeInvalid)
    case _ =>
      if value.JText? && B.DecodeB64u(value.s).Success? then Success(Bytes(B.DecodeB64u(value.s).value))
      else Failure(ShapeInvalid)
  }

  /** Decodes a node with `budget` nodes left, and says how many are left afterwards. */
  function Decode(node: Json, depth: nat, budget: int): Decoded<Value>
    decreases node
  {
    if depth > MAX_DEPTH then (Failure(LimitExceeded), budget)
    else if budget - 1 < 0 then (Failure(LimitExceeded), budget - 1)
    else if !node.JObject? || "$type" !in node.fields || node.fields["$type"] != JText(VALUE_TYPE) then
      (Failure(ShapeInvalid), budget - 1)
    else
      var fields, kind := node.fields, Kind(node.fields);
      if kind in {"scalar", "float64", "bytes"} && Exactly(fields, "value") then
        (DecodeLeaf(kind, fields["value"]), budget - 1)
      else if kind in {"tuple", "list", "map"} && Exactly(fields, "items") && fields["items"].JList? then
        if kind == "map" then
          var (entries, left) := DecodeEntries(fields["items"].items, "", depth + 1, budget - 1);
          (if entries.Success? then Success(Dict(entries.value)) else Failure(entries.error), left)
        else
          var (items, left) := DecodeItems(fields["items"].items, depth + 1, budget - 1);
          (if items.Failure? then Failure(items.error)
           else if kind == "tuple" then Success(Tuple(items.value)) else Success(List(items.value)), left)
      else (Failure(ShapeInvalid), budget - 1)
  }

  function DecodeItems(items: seq<Json>, depth: nat, budget: int): Decoded<seq<Value>>
    decreases items
  {
    if items == [] then (Success([]), budget)
    else
      var (first, left) := Decode(items[0], depth, budget);
      if first.Failure? then (Failure(first.error), left)
      else
        var (rest, end) := DecodeItems(items[1..], depth, left);
        (if rest.Failure? then rest else Success([first.value] + rest.value), end)
  }

  predicate IsEntry(item: Json) {
    item.JList? && |item.items| == 2 && item.items[0].JText? && item.items[0].s != ""
  }

  // No key is empty, so the empty text stands for "no previous key".
  function DecodeEntries(items: seq<Json>, previous: string, depth: nat, budget: int): Decoded<map<string, Value>>
    decreases items
  {
    if items == [] then (Success(map[]), budget)
    else if !IsEntry(items[0]) || !Order.Less(previous, items[0].items[0].s) then (Failure(ShapeInvalid), budget)
    else
      var key := items[0].items[0].s;
      var (first, left) := Decode(items[0].items[1], depth, budget);
      if first.Failure? then (Failure(first.error), left)
      else
        var (rest, end) := DecodeEntries(items[1..], key, depth, left);
        (if rest.Failure? then rest else Success(map[key := first.value] + rest.value), end)
  }
}
