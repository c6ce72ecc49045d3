/** JSON values as the backend stores, receives and returns them, and the
    handful of JavaScript operators the handlers apply to them. */
module Json {

  /** `Some(v)` is a present value; `None` is JavaScript's `undefined`. */
  datatype Option<+T> = None | Some(value: T)

  /** A JSON value. JavaScript numbers are modelled as integers. */
  datatype Value =
    | VNull
    | VBool(b: bool)
    | VNum(n: int)
    | VStr(s: string)
    | VList(items: seq<Value>)
    | VObj(fields: map<string, Value>)

  /** One JSON object: a stored record, a request body, a response object. */
  type Record = map<string, Value>

  /** Property access `r.k`: `None` when the key is absent. */
  function Get(r: Record, k: string): Option<Value> {
    if k in r then Some(r[k]) else None
  }

  /** JavaScript truthiness of a property value. */
  predicate Truthy(v: Option<Value>) {
    match v
    case None => false
    case Some(VNull) => false
    case Some(VBool(b)) => b
    case Some(VNum(n)) => n != 0
    case Some(VStr(s)) => s != ""
    case Some(VList(_)) => true
    case Some(VObj(_)) => true
  }

  predicate IsPrimitive(v: Value) {
    !v.VList? && !v.VObj?
  }

  /** JavaScript `===` between two property values. Every object and array
      the handlers compare was parsed separately, so two of them are never
      the same reference and never strictly equal. */
  predicate StrictEq(a: Option<Value>, b: Option<Value>) {
    match (a, b)
    case (None, None) => true
    case (Some(x), Some(y)) => IsPrimitive(x) && x == y
    case _ => false
  }

  /** The own properties `{...v}` copies out of an object-valued property;
      `undefined`, `null`, booleans and numbers spread to nothing. */
  function Spread(v: Option<Value>): Record {
    match v
    case Some(VObj(m)) => m
    case _ => map[]
  }

  /** The array a property holds, or `[]` for `x || []` when it is missing. */
  function ListOr(v: Option<Value>): seq<Value> {
    match v
    case Some(VList(items)) => items
    case _ => []
  }

  /** An object literal `{ a: r.a, b: r.b, ... }` after JSON serialisation:
      keys whose value is `undefined` are dropped. */
  function Pick(r: Record, keys: set<string>): (p: Record)
    ensures p.Keys == r.Keys * keys
    ensures forall k :: k in p ==> p[k] == r[k]
  {
    map k | k in r.Keys * keys :: r[k]
  }

  /** A list of strings as JSON strings. */
  function Strings(xs: seq<string>): (vs: seq<Value>)
    ensures |vs| == |xs|
    ensures forall i :: 0 <= i < |xs| ==> vs[i] == VStr(xs[i])
  {
    seq(|xs|, i requires 0 <= i < |xs| => VStr(xs[i]))
  }

  /** `{ error: message }`, the body of every error reply. */
  function ErrorBody(message: string): Value {
    VObj(map["error" := VStr(message)])
  }
}
