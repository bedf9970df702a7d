/**
 * The JSON-like values that reach the dashboard and the form (payloads,
 * rows, replies) and the few JavaScript operations applied to them:
 * truthiness, property reads, `String(v)` and the
 * `Object.prototype.toString` type tag.
 */
module JsValues {
  import opened Text

  /** A JavaScript value as decoded from JSON. Numbers are integers in this model. */
  datatype JsValue =
    | Undefined
    | Null
    | Bool(b: bool)
    | Num(n: int)
    | Str(s: string)
    | Arr(items: seq<JsValue>)
    | Obj(fields: map<string, JsValue>)

  predicate IsNullish(v: JsValue) {
    v.Undefined? || v.Null?
  }

  /** JavaScript truthiness: what `!v` and `v || w` test. */
  predicate Truthy(v: JsValue) {
    match v
    case Undefined => false
    case Null => false
    case Bool(b) => b
    case Num(n) => n != 0
    case Str(s) => s != ""
    case Arr(_) => true
    case Obj(_) => true
  }

  /** The property read `v.name` (or `v?.name`) on a value that is not nullish. */
  function Get(v: JsValue, name: string): JsValue {
    if v.Obj? && name in v.fields then v.fields[name] else Undefined
  }

  /** ECMAScript ToString, as `String(v)`, a template literal or `v.toString()` apply it. */
  function ToStr(v: JsValue): string {
    match v
    case Undefined => "undefined"
    case Null => "null"
    case Bool(b) => if b then "true" else "false"
    case Num(n) => Decimal(n)
    case Str(s) => s
    case Arr(items) =>
      // Array.prototype.join(","): null and undefined elements become ""
      JoinComma(seq(|items|, i requires 0 <= i < |items| =>
        if IsNullish(items[i]) then "" else ToStr(items[i])))
    case Obj(_) => "[object Object]"
  }

  function JoinComma(parts: seq<string>): string {
    if |parts| == 0 then "" else Join(parts, ',')
  }

  /** `Object.prototype.toString.call(v)`. */
  function TypeTag(v: JsValue): string {
    match v
    case Undefined => "[object Undefined]"
    case Null => "[object Null]"
    case Bool(_) => "[object Boolean]"
    case Num(_) => "[object Number]"
    case Str(_) => "[object String]"
    case Arr(_) => "[object Array]"
    case Obj(_) => "[object Object]"
  }

  /**
   * What `err.message || String(err)` shows for an `Error` built with this
   * message: `String` of an Error with an empty message is its name.
   */
  function ErrorText(message: string): (shown: string)
    ensures shown != ""
    ensures message != "" ==> shown == message
  {
    if message != "" then message else "Error"
  }
}
