/**
 * JavaScript values as the dashboard meets them at the API boundary, and the
 * two coercions its loaders apply to every numeric field: `Number(v)` and
 * `Number(v) || 0`.
 *
 * Numbers are exact reals: rounding of IEEE doubles is not modelled, but
 * NaN is, because the source's `|| 0` idiom exists to remove it.
 */
module JsValues {

  datatype Option<T> = None | Some(value: T)

  /** The result of a call that may throw. */
  datatype Outcome<T> = Returned(value: T) | Threw

  /** A JavaScript number: a finite value or NaN. */
  datatype JsNumber = Num(value: real) | NaN

  /** A field of a JSON object sent by the backend. */
  datatype RawValue =
    | RawNumber(x: real)        // a JSON number
    | RawNumericText(x: real)   // a string that Number() reads as x ("" reads as 0)
    | RawText(text: string)     // a string that Number() reads as NaN
    | RawNull                   // JSON null
    | RawAbsent                 // the field is missing (undefined)

  /** `Number(v)`: null becomes 0, undefined and non-numeric text become NaN. */
  function ToNumber(v: RawValue): (n: JsNumber)
    ensures n.NaN? <==> v.RawText? || v.RawAbsent?
    ensures v.RawNumber? || v.RawNumericText? ==> n == Num(v.x)
    ensures v.RawNull? ==> n == Num(0.0)
  {
    match v
    case RawNumber(x) => Num(x)
    case RawNumericText(x) => Num(x)
    case RawText(_) => NaN
    case RawNull => Num(0.0)
    case RawAbsent => NaN
  }

  /** `n || 0`: NaN and 0 are falsy, so both give 0; any other number is kept. */
  function OrZero(n: JsNumber): (r: real)
    ensures n.Num? ==> r == n.value
    ensures n.NaN? ==> r == 0.0
  {
    match n
    case Num(x) => x
    case NaN => 0.0
  }

  /** `Number(v) || 0`: total, and never NaN. */
  function Coerce(v: RawValue): (r: real)
    ensures v.RawNumber? || v.RawNumericText? ==> r == v.x
    ensures v.RawText? || v.RawNull? || v.RawAbsent? ==> r == 0.0
  {
    OrZero(ToNumber(v))
  }

  /** JavaScript truthiness of a number. */
  predicate NumberTruthy(n: JsNumber)
  {
    n.Num? && n.value != 0.0
  }

  /** `a - b` on JavaScript numbers: NaN is contagious. */
  function Minus(a: JsNumber, b: JsNumber): (r: JsNumber)
    ensures r.Num? <==> a.Num? && b.Num?
    ensures r.Num? ==> r.value + b.value == a.value
  {
    if a.Num? && b.Num? then Num(a.value - b.value) else NaN
  }

  /** `s || d` on an optional string: undefined, null and "" are falsy. */
  function TextOr(s: Option<string>, d: string): (r: string)
    ensures s.Some? && s.value != "" ==> r == s.value
    ensures s.None? || s.value == "" ==> r == d
  {
    if s.Some? && s.value != "" then s.value else d
  }

  /** `s || undefined` on a form string: the empty string is dropped. */
  function NonEmpty(s: string): (r: Option<string>)
    ensures r.None? <==> s == ""
    ensures r.Some? ==> r.value == s
  {
    if s == "" then None else Some(s)
  }

  function Max(a: real, b: real): (r: real)
    ensures r >= a && r >= b && (r == a || r == b)
  {
    if a >= b then a else b
  }
}
