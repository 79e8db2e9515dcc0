/** Values as they arrive in a parsed JSON request body, and JavaScript truthiness. */
module Json {

  /** A field of a parsed JSON body. `Undefined` is a field the body does not have;
      `Composite` is an object or an array, always truthy. Its contents are represented only by
      `text`, the string its `toString()` gives: `""` for `[]` and `[""]`, `"[object Object]"`
      for an object. */
  datatype Value =
    | Undefined
    | Null
    | Bool(b: bool)
    | Num(x: real)
    | Str(s: string)
    | Composite(text: string)

  /** JavaScript's `!!v`: the test `if (!req.title)` and friends rejects exactly the falsy values.
      JSON cannot produce NaN, so the falsy numbers are 0 and -0, both `Num(0.0)` here. */
  predicate Truthy(v: Value) {
    match v
    case Undefined => false
    case Null => false
    case Bool(b) => b
    case Num(x) => x != 0.0
    case Str(s) => s != ""
    case Composite(_) => true
  }
}
