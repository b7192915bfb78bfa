/**
 * The JavaScript values that reach the registry's fields, and the operators the
 * code applies to them: truthiness, `v || default`, property lookup and `String(v)`.
 */
module JsValues {

  /**
   * A field value: missing (`undefined`), a boolean (a bare `--key` on the command
   * line yields `true`) or a string. Strict equality `===` is structural equality.
   */
  datatype Value = Undefined | Bool(b: bool) | Text(s: string)

  /** A plain object such as an entry or the parsed arguments: property name to value. */
  type Object = map<string, Value>

  /** JavaScript truthiness: `undefined`, `false` and `''` are falsy. */
  predicate Truthy(v: Value) {
    match v
    case Undefined => false
    case Bool(b) => b
    case Text(s) => s != ""
  }

  /** `v || d` for a string default d. */
  function Or(v: Value, d: string): (r: Value)
    ensures Truthy(v) ==> r == v
    ensures !Truthy(v) ==> r == Text(d)
  {
    if Truthy(v) then v else Text(d)
  }

  /** `o.key`: a missing property reads as `undefined`. */
  function Get(o: Object, key: string): Value {
    if key in o then o[key] else Undefined
  }

  /** `String(v)`. */
  function ToStr(v: Value): string {
    match v
    case Undefined => "undefined"
    case Bool(b) => if b then "true" else "false"
    case Text(s) => s
  }

}
