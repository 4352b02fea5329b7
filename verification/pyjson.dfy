/** Python values as `json.loads` produces them, with the operations the
    application applies to them without first checking their type: truthiness,
    `x in v`, `v.get(k, default)` and `len(v)`.

    JSON numbers are integers here; floating-point numbers are not modelled.
    Objects are maps, so key order (which `json.dumps` preserves) is not
    represented.
 */
module PyJson {
  import opened Base
  import opened PyText

  datatype Json =
    | JNull
    | JBool(b: bool)
    | JNum(n: int)
    | JStr(s: string)
    | JArr(items: seq<Json>)
    | JObj(fields: map<string, Json>)

  /** A text column holding JSON: empty (`None` or `""`), text `json.loads`
      rejects, or the encoding of a value. `json.dumps(v)` is `Encoded(v)`. */
  datatype Blob = Empty | Unparseable(raw: string) | Encoded(doc: Json)

  /** `bool(v)`. */
  predicate Truthy(v: Json)
  {
    match v
    case JNull => false
    case JBool(b) => b
    case JNum(n) => n != 0
    case JStr(s) => |s| > 0
    case JArr(items) => |items| > 0
    case JObj(fields) => |fields| > 0
  }

  predicate IsContainer(v: Json)
  {
    v.JStr? || v.JArr? || v.JObj?
  }

  /** `len(v)`; `TypeError` for `None`, booleans and numbers. */
  function Len(v: Json): (r: Outcome<nat>)
    ensures r.Ok? <==> IsContainer(v)
    ensures r.Raised? ==> r.error == TypeError
    ensures r.Ok? ==> (Truthy(v) <==> r.value > 0)
  {
    match v
    case JStr(s) => Ok(|s|)
    case JArr(items) => Ok(|items|)
    case JObj(fields) => Ok(|fields|)
    case _ => Raised(TypeError)
  }

  /** `needle in v` for a string needle: substring test on a string, element
      test on a list, key test on a dict, `TypeError` otherwise. */
  function In(needle: string, v: Json): (r: Outcome<bool>)
    ensures r.Ok? <==> IsContainer(v)
    ensures r.Raised? ==> r.error == TypeError
    ensures v.JObj? ==> r == Ok(needle in v.fields)
    ensures v.JArr? ==> r == Ok(exists i :: 0 <= i < |v.items| && v.items[i] == JStr(needle))
  {
    match v
    case JStr(s) => Ok(Contains(s, needle))
    case JArr(items) => Ok(JStr(needle) in items)
    case JObj(fields) => Ok(needle in fields)
    case _ => Raised(TypeError)
  }

  /** `v.get(key, default)`; `AttributeError` unless `v` is a dict. */
  function Get(v: Json, key: string, default: Json): (r: Outcome<Json>)
    ensures r.Ok? <==> v.JObj?
    ensures r.Raised? ==> r.error == AttributeError
    ensures v.JObj? && key in v.fields ==> r == Ok(v.fields[key])
    ensures v.JObj? && key !in v.fields ==> r == Ok(default)
  {
    if v.JObj? then Ok(if key in v.fields then v.fields[key] else default)
    else Raised(AttributeError)
  }

  /** `{k: v for k, v in d.items() if k != key}`. */
  function Without(fields: map<string, Json>, key: string): (r: map<string, Json>)
    ensures key !in r
    ensures forall k :: k in r <==> k in fields && k != key
    ensures forall k :: k in r ==> r[k] == fields[k]
  {
    map k | k in fields && k != key :: fields[k]
  }
}
