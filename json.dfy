/**
 * Decoded JSON values, as both runtimes see them after parsing, with the two
 * conversions the core relies on: JavaScript's `String(x)` and Python's truth value.
 */
module Json {
  import opened Text
  import opened Wrappers

  /** A decoded JSON value. Numbers are integers here; fractional numbers are not modelled. */
  datatype Json =
    | JNull
    | JBool(b: bool)
    | JNumber(n: int)
    | JString(s: string)
    | JArray(items: seq<Json>)
    | JObject(fields: map<string, Json>)

  /** JavaScript's `String(x)` for a decoded JSON value: an array is its elements'
      strings joined by ",", with `null` elements rendered as the empty string. */
  function JsString(j: Json): string
    decreases j, 1
  {
    match j
    case JNull => "null"
    case JBool(b) => if b then "true" else "false"
    case JNumber(n) => IntToString(n)
    case JString(s) => s
    case JArray(items) => JoinArray(j, items)
    case JObject(_) => "[object Object]"
  }

  /** `Array.prototype.join(",")` over the elements of the array `parent`. */
  function JoinArray(parent: Json, items: seq<Json>): string
    requires parent.JArray? && items <= parent.items
    decreases parent, 0, |items|
  {
    if items == [] then ""
    else
      var last := items[|items| - 1];
      var head := JoinArray(parent, items[..|items| - 1]);
      var piece := if last.JNull? then "" else JsString(last);
      if |items| == 1 then piece else head + "," + piece
  }

  /** The string of a JSON string is the string itself. */
  lemma JsStringOfString(s: string)
    ensures JsString(JString(s)) == s
  {
  }

  /** Python's truth value of a decoded JSON value (`bool(x)`). */
  predicate PyTruthy(j: Json) {
    match j
    case JNull => false
    case JBool(b) => b
    case JNumber(n) => n != 0
    case JString(s) => s != ""
    case JArray(items) => items != []
    case JObject(fields) => fields != map[]
  }

  /** JavaScript's `obj?.name`; `None` stands for `undefined`. */
  function Field(j: Json, name: string): (r: Option<Json>)
    ensures r.Some? <==> j.JObject? && name in j.fields
  {
    if j.JObject? && name in j.fields then Some(j.fields[name]) else None
  }
}
