/**
 * Loosely typed values as the front end receives them from JSON: what the
 * server stores in `diet_img_path`, what `JSON.parse` returns. Numbers are
 * integers here (floating point is not modelled); null and undefined are one
 * value, JNull.
 */
module JsValues {

  datatype JsValue =
    | JNull
    | JBool(b: bool)
    | JNum(n: int)
    | JStr(s: string)
    | JArr(items: seq<JsValue>)
    | JObj(fields: map<string, JsValue>)

  /** JavaScript truthiness: null, false, 0 and "" are falsy; arrays and objects are truthy. */
  predicate Truthy(v: JsValue) {
    match v
    case JNull => false
    case JBool(b) => b
    case JNum(n) => n != 0
    case JStr(s) => s != ""
    case JArr(_) => true
    case JObj(_) => true
  }

  /** `v[key]` for an own property of an object; anything else reads as undefined. */
  function Property(v: JsValue, key: string): JsValue {
    if v.JObj? && key in v.fields then v.fields[key] else JNull
  }
}
