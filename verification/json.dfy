/** The JSON values Foundation's `JSONSerialization` hands back, and the
    conditional casts (`as? [String: Any]`, `as? [[String: Any]]`,
    `as? String`) the view-model applies to them. */
module Json {
  import opened Options

  /** A decoded JSON value. Numbers are kept as integers: the app never
      reads a number, it only needs to tell that one is not a string. */
  datatype Value =
    | Null
    | Bool(b: bool)
    | Number(n: int)
    | Str(s: string)
    | Array(items: seq<Value>)
    | Object(fields: map<string, Value>)

  /** A JSON object, as Swift's `[String: Any]`. */
  type Record = map<string, Value>

  /** What `JSONSerialization.jsonObject(with:)` makes of a response body:
      it throws on bytes that are not JSON, and otherwise yields a value. */
  datatype Payload = Malformed | Parsed(root: Value)

  /** `v as? [String: Any]` */
  function AsObject(v: Value): (r: Option<Record>)
    ensures r.Some? <==> v.Object?
    ensures r.Some? ==> r.value == v.fields
  {
    match v
    case Object(fields) => Some(fields)
    case _ => None
  }

  /** `rec[key] as? String`: absent keys, `null`, numbers, arrays and
      objects all fail the cast. */
  function StringField(rec: Record, key: string): (r: Option<string>)
    ensures r.Some? <==> key in rec && rec[key].Str?
    ensures r.Some? ==> r.value == rec[key].s
  {
    if key in rec then
      match rec[key]
      case Str(s) => Some(s)
      case _ => None
    else None
  }

  /** The element-wise cast of a JSON array to `[[String: Any]]`: it
      succeeds only when every element is an object. */
  function ObjectsOf(items: seq<Value>): (r: Option<seq<Record>>)
    ensures r.Some? <==> forall i :: 0 <= i < |items| ==> items[i].Object?
    ensures r.Some? ==> |r.value| == |items|
    ensures r.Some? ==> forall i :: 0 <= i < |items| ==> r.value[i] == items[i].fields
  {
    if items == [] then Some([])
    else
      match items[0]
      case Object(fields) =>
        (match ObjectsOf(items[1..])
         case Some(rest) => Some([fields] + rest)
         case None => None)
      case _ => None
  }

  /** `v as? [[String: Any]]`: all or nothing. A single non-object element
      anywhere in the array makes the whole cast fail. */
  function AsObjectArray(v: Value): (r: Option<seq<Record>>)
    ensures r.Some? <==> v.Array? && forall i :: 0 <= i < |v.items| ==> v.items[i].Object?
    ensures r.Some? ==> |r.value| == |v.items|
    ensures r.Some? ==> forall i :: 0 <= i < |v.items| ==> r.value[i] == v.items[i].fields
  {
    match v
    case Array(items) => ObjectsOf(items)
    case _ => None
  }
}
