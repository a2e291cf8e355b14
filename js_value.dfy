/** JavaScript values as the three record services inspect them: the
    truthiness behind `||` and `if (x)`, `!== undefined` presence checks,
    optional-chaining property reads, and the two host built-ins the
    services call (`JSON.stringify` and template-literal conversion),
    which stay uninterpreted. */
module JsValue {

  datatype Option<T> = None | Some(value: T)

  /** A JavaScript value. Numbers are integers (no NaN, no fractions);
      arrays and plain objects are kept structurally. */
  datatype Value =
    | Undefined
    | Null
    | Bool(b: bool)
    | Num(n: int)
    | Str(s: string)
    | Arr(items: seq<Value>)
    | Obj(fields: map<string, Value>)

  /** A plain object passed in by a caller (`assignmentData`, `updates`, ...)
      or built for the client, as the map of its own properties. */
  type Payload = map<string, Value>

  /** The host functions the services call but do not define. They are
      parameters of the model, so nothing is assumed about them. */
  datatype Builtins = Builtins(
    stringify: Value -> Value,  // JSON.stringify (returns undefined for undefined)
    template: Value -> string   // the string a value becomes inside `${...}`
  )

  /** ToBoolean: what `if (v)`, `!v` and `v || w` test. */
  predicate Truthy(v: Value) {
    match v
    case Undefined => false
    case Null => false
    case Bool(b) => b
    case Num(n) => n != 0
    case Str(s) => s != []
    case Arr(_) => true
    case Obj(_) => true
  }

  predicate Nullish(v: Value) {
    v.Undefined? || v.Null?
  }

  /** `o.key` on a plain object: a missing property reads as undefined. */
  function Get(o: Payload, key: string): Value {
    if key in o then o[key] else Undefined
  }

  /** `o.key !== undefined`. */
  predicate Defined(o: Payload, key: string) {
    Get(o, key) != Undefined
  }

  /** `v?.key` for a property no array, string or primitive has: only a
      plain object can yield something other than undefined. */
  function Member(v: Value, key: string): Value {
    match v
    case Obj(m) => Get(m, key)
    case _ => Undefined
  }

  /** JavaScript `a || b`: `a` when it is truthy, otherwise `b`, whatever `b` is. */
  function Or(a: Value, b: Value): Value {
    if Truthy(a) then a else b
  }

  /** `v` is what `canonical || alias` yields for a column: the canonical
      value when it is truthy, the alias value otherwise. */
  predicate CanonicalElseAlias(v: Value, canonical: Value, alias: Value) {
    if Truthy(canonical) then v == canonical else v == alias
  }
}
