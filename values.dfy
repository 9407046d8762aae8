/** JavaScript values as the database client hands them to the controllers,
    and the two ways the controllers test a stored `cumplido` flag:
    truthiness (`if (x)`, `x || d`) and strict equality (`x === true`). */
module JsValues {

  datatype Option<+T> = None | Some(value: T)

  /** A column value: SQL NULL, a boolean, an (integral) number or a text. */
  datatype Value = Null | Bool(b: bool) | Num(n: int) | Text(s: string)

  /** JavaScript truthiness: null, false, 0 and "" are falsy. */
  predicate Truthy(v: Value) {
    match v
    case Null => false
    case Bool(b) => b
    case Num(n) => n != 0
    case Text(s) => s != ""
  }

  /** A column whose values are booleans or NULL (the `cumplido` columns). */
  predicate IsBooleanOrNull(v: Value) {
    v.Null? || v.Bool?
  }

  /** On a boolean column, `if (x)` and `if (x === true)` decide alike. */
  lemma TruthyIsStrictOnBooleans(v: Value)
    requires IsBooleanOrNull(v)
    ensures Truthy(v) <==> v == Bool(true)
  {
  }

  /** `v || d`: the value itself when it is truthy, the default otherwise. */
  function OrDefault(v: Value, d: Value): (r: Value)
    ensures r == v || r == d
    ensures Truthy(r) <==> Truthy(v) || Truthy(d)
    ensures Truthy(v) ==> r == v
  {
    if Truthy(v) then v else d
  }

  /** `x?.cumplido || false` where `x` may be undefined: never a falsy value
      other than `false`. */
  function OrFalse(v: Option<Value>): (r: Value)
    ensures Truthy(r) || r == Bool(false)
    ensures v.Some? && Truthy(v.value) ==> r == v.value
    ensures r != Bool(false) ==> v.Some? && r == v.value
  {
    match v
    case None => Bool(false)
    case Some(x) => OrDefault(x, Bool(false))
  }

  /** `x?.field || null` where the row `x` may be missing: the stored value
      when it is truthy, NULL otherwise. */
  function OrNull(v: Option<Value>): (r: Value)
    ensures Truthy(r) || r == Null
    ensures v.Some? && Truthy(v.value) ==> r == v.value
    ensures r != Null ==> v.Some? && r == v.value
  {
    match v
    case None => Null
    case Some(x) => OrDefault(x, Null)
  }

  /** What a request handler answers: a value, or an HTTP error status. */
  datatype Result<+T> = Ok(value: T) | Err(status: int)
}
