/**
 * JSON values as the generator handles them: schemas are opaque JSON, and the
 * only operations on them are JavaScript's truthiness test, property access
 * and object spread with one overridden key.
 */
module Json {
  import opened Wrappers

  datatype Json =
    | JNull
    | JBool(b: bool)
    | JNum(n: int)
    | JStr(s: string)
    | JArr(elems: seq<Json>)
    | JObj(fields: map<string, Json>)

  /** JavaScript truthiness of a value that may be `undefined` (`None`). */
  predicate Truthy(v: Option<Json>) {
    match v
    case None => false
    case Some(JNull) => false
    case Some(JBool(b)) => b
    case Some(JNum(n)) => n != 0
    case Some(JStr(s)) => s != ""
    case Some(JArr(_)) => true
    case Some(JObj(_)) => true
  }

  /**
   * `v.key` for a value that is neither `undefined` nor `null`: the field of an
   * object, and `undefined` for every other kind of value.
   */
  function Member(v: Json, key: string): (r: Option<Json>)
    requires v != JNull
    ensures r.Some? <==> v.JObj? && key in v.fields
    ensures r.Some? ==> r.value == v.fields[key]
  {
    match v
    case JObj(f) => if key in f then Some(f[key]) else None
    case _ => None
  }

  /**
   * An object literal `{ ...fields, key: v }` in which `v` may be `undefined`;
   * `JSON.stringify` drops a key whose value is `undefined`, so the key is left out.
   */
  function WithField(fields: map<string, Json>, key: string, v: Option<Json>): (r: map<string, Json>)
    ensures v.Some? ==> key in r && r[key] == v.value && r.Keys == fields.Keys + {key}
    ensures v.None? ==> r == fields
  {
    match v
    case Some(x) => fields[key := x]
    case None => fields
  }

  /** `{ type: "object", properties: p }`, the wrapper the generator puts around item schemas. */
  function ObjectOf(p: Option<Json>): (r: Json)
    ensures r.JObj? && "type" in r.fields && r.fields["type"] == JStr("object")
    ensures "properties" in r.fields <==> p.Some?
    ensures p.Some? ==> r.fields["properties"] == p.value
    ensures r.fields.Keys <= {"type", "properties"}
  {
    JObj(WithField(map["type" := JStr("object")], "properties", p))
  }

  /** `{ $ref: target }`. */
  function Ref(target: string): (r: Json)
    ensures r.JObj? && r.fields.Keys == {"$ref"} && r.fields["$ref"] == JStr(target)
  {
    JObj(map["$ref" := JStr(target)])
  }
}
