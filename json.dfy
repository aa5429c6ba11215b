/** The JavaScript values a request body or a stored record can hold, and the
    few operators of the language the handlers apply to them. */
module Json {
  import opened Outcomes

  /** A parsed JSON value, or a property that is absent (`undefined`).
      Numbers are integers; `Composite` stands for any object or array. */
  datatype Value =
    | Undefined
    | Null
    | Bool(b: bool)
    | Num(n: int)
    | Str(s: string)
    | Composite

  /** JavaScript truthiness: `undefined`, `null`, `false`, `0` and `''` are falsy. */
  predicate Truthy(v: Value) {
    match v
    case Undefined => false
    case Null => false
    case Bool(b) => b
    case Num(n) => n != 0
    case Str(s) => s != ""
    case Composite => true
  }

  /** `a || b` */
  function Or(a: Value, b: Value): Value {
    if Truthy(a) then a else b
  }

  /** `undefined` or `null`, the values `??` replaces. */
  predicate Nullish(v: Value) {
    v.Undefined? || v.Null?
  }

  /** `a ?? b` */
  function Coalesce(a: Value, b: Value): Value {
    if Nullish(a) then b else a
  }

  /** `a === b`: two objects taken from different parses are never identical. */
  predicate StrictEquals(a: Value, b: Value) {
    a == b && !a.Composite?
  }

  /** The string a handler gets from `(v || '')` before calling a string
      method on it; `None` when that call throws a TypeError because `v` is a
      truthy value that is not a string. */
  function TextOf(v: Value): (r: Option<string>)
    ensures r == None <==> Truthy(v) && !v.Str?
    ensures r.Some? && Truthy(v) ==> r.value == v.s
    ensures r.Some? && !Truthy(v) ==> r.value == ""
  {
    if !Truthy(v) then Some("")
    else if v.Str? then Some(v.s)
    else None
  }
}
