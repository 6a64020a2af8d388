/** The dynamically typed values that form records hold, and JavaScript truthiness. */
module JsValue {
  import opened Wrappers

  /** A value of a record field; numbers are the integer ones the forms use. */
  datatype Value = Undefined | Null | Bool(b: bool) | Num(n: int) | Str(s: string)

  /** `!!v`: `undefined`, `null`, `false`, `0` and `''` are falsy, everything else truthy. */
  predicate Truthy(v: Value) {
    match v
    case Undefined => false
    case Null => false
    case Bool(b) => b
    case Num(n) => n != 0
    case Str(s) => s != ""
  }

  /** Truthiness of a text field that may be `null`. */
  predicate TruthyText(t: Option<string>) {
    t.Some? && t.value != ""
  }

  /** A record as a plain object: field name to value; an absent key reads as `undefined`. */
  type Record = map<string, Value>

  function Get(r: Record, key: string): Value {
    if key in r then r[key] else Undefined
  }
}
