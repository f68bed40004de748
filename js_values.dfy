/**
 * JavaScript values as the application's records hold them, with the
 * language rules the code leans on: truthiness, `a || b`, object spread,
 * reading a missing key, and `String(v)`.
 */
module JsValues {
  import opened JsStrings


  /** The values a deal field or a form field can hold (NaN is not modelled). */
  datatype Value = Undefined | Null | Bool(b: bool) | Num(x: real) | Str(s: string)

  /** A plain object: the keys it has and their values. */
  type Record = map<string, Value>

  /** `r[k]`: undefined when the key is absent. */
  function Get(r: Record, k: string): Value {
    if k in r then r[k] else Undefined
  }

  /** JavaScript truthiness. */
  predicate Truthy(v: Value) {
    match v
    case Undefined => false
    case Null => false
    case Bool(b) => b
    case Num(x) => x != 0.0
    case Str(s) => s != ""
  }

  predicate IsNullish(v: Value) { v == Undefined || v == Null }

  /** `a || b`: the first operand when it is truthy, else the second. */
  function Or(a: Value, b: Value): (r: Value)
    ensures Truthy(a) ==> r == a
    ensures !Truthy(a) ==> r == b
  {
    if Truthy(a) then a else b
  }

  /** `{...a, ...b}`: the keys of both, the values of `b` winning. */
  function Spread(a: Record, b: Record): (r: Record)
    ensures r.Keys == a.Keys + b.Keys
    ensures forall k :: k in b ==> Get(r, k) == b[k]
    ensures forall k :: k !in b ==> Get(r, k) == Get(a, k)
  {
    a + b
  }

  /** Spreading a record over itself, or spreading nothing, changes nothing. */
  lemma SpreadIdentity(a: Record, b: Record)
    ensures Spread(a, map[]) == a
    ensures (forall k :: k in b ==> k in a && a[k] == b[k]) ==> Spread(a, b) == a
  {
  }

  // ---------------------------------------------------------------- numbers as text

  /** The digits of a fraction in [0, 1), at most `n` of them, without trailing zeros. */
  function FractionDigits(f: real, n: nat): (r: string)
    requires 0.0 <= f < 1.0
    decreases n
    ensures AllDigits(r) && |r| <= n
  {
    if n == 0 || f == 0.0 then ""
    else
      var d := (f * 10.0).Floor;
      [DigitChar(d)] + FractionDigits(f * 10.0 - d as real, n - 1)
  }

  /**
   * `String(x)` for a number: the integer part, then a point and the
   * fraction digits when there is a fraction.
   */
  function NumberToString(x: real): (r: string)
    ensures r != []
  {
    var a := if x < 0.0 then -x else x;
    var ip := a.Floor;
    var frac := FractionDigits(a - ip as real, 20);
    (if x < 0.0 then "-" else "") + NatToString(ip) + (if frac == "" then "" else "." + frac)
  }

  /** Integers print without a fraction. */
  lemma NumberToStringInteger(n: nat)
    ensures NumberToString(n as real) == NatToString(n)
  {
  }

  /** `String(v)`. */
  function ToJsString(v: Value): string {
    match v
    case Undefined => "undefined"
    case Null => "null"
    case Bool(b) => if b then "true" else "false"
    case Num(x) => NumberToString(x)
    case Str(s) => s
  }
}
