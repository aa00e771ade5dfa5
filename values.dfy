/** JavaScript values as they pass through the request pipeline. */
module Values {

  datatype Option<+T> = None | Some(value: T)

  /**
   * A value the pipeline can see: anything a JSON request body can carry, an
   * Error object, or `Callback`, the one function value the pipeline itself
   * creates (the error-first callback synthesized by the third stage).
   * Numbers are integers; floating point is not part of this model.
   */
  datatype Value =
    | Undefined
    | Null
    | Bool(b: bool)
    | Num(n: int)
    | Str(s: string)
    | Arr(items: seq<Value>)
    | Obj(fields: map<string, Value>)
    | Error(message: string)
    | Callback

  /** JavaScript truthiness: `undefined`, `null`, `false`, `0` and `''` are falsy. */
  predicate Truthy(v: Value) {
    match v
    case Undefined => false
    case Null => false
    case Bool(b) => b
    case Num(n) => n != 0
    case Str(s) => s != ""
    case _ => true
  }

  /** The reserved token a client puts where its callback belongs; both sides must agree on it. */
  const CLIENT_CALLBACK: string := "__clientCallback__"

  /** Strict equality `arg === '__clientCallback__'`: only a string with exactly these characters. */
  predicate IsPlaceholder(v: Value) {
    v == Str(CLIENT_CALLBACK)
  }
}
