/**
 * The JSON scalar values a metric row's fields can hold once the API response
 * is parsed, with the two JavaScript operations the dashboard applies to them:
 * truthiness (for `||`) and `Number(...)` (ToNumber, section 7.1.4 of ECMA-262).
 */
module JsValue {
  import opened JsNumber

  /** `Undefined` is a property the row does not have; the rest are JSON scalars. */
  datatype Value = Undefined | Null | Bool(b: bool) | Num(n: Number) | Str(s: string)

  /** ToBoolean: false, null, undefined, 0, NaN and "" are falsy; everything else is truthy. */
  predicate Truthy(v: Value) {
    match v
    case Undefined => false
    case Null => false
    case Bool(b) => b
    case Num(n) => !n.NaN? && n != Finite(0.0)
    case Str(s) => s != []
  }

  /** `a || b`: the left operand when it is truthy, otherwise the right one. */
  function Or(a: Value, b: Value): (r: Value)
    ensures r == a || r == b
    ensures Truthy(r) <==> Truthy(a) || Truthy(b)
    ensures Truthy(a) ==> r == a
    ensures !Truthy(a) ==> r == b
  {
    if Truthy(a) then a else b
  }

  /** `Number(v)`: undefined is NaN, null and false are 0, true is 1, a string goes through StringToNumber. */
  function ToNumber(v: Value): (n: Number)
    ensures v.Num? ==> n == v.n
    ensures v.Undefined? ==> n.NaN?
    ensures v.Null? ==> n == Finite(0.0)
    ensures v.Bool? ==> n == Finite(if v.b then 1.0 else 0.0)
    ensures v.Str? ==> n == StringToNumber(v.s)
  {
    match v
    case Undefined => NaN
    case Null => Finite(0.0)
    case Bool(b) => Finite(if b then 1.0 else 0.0)
    case Num(x) => x
    case Str(s) => StringToNumber(s)
  }
}
