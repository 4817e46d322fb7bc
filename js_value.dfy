/**
 * The JavaScript values the graph layer and the Foxx service handle:
 * documents, property values, configuration values and labels.
 * Numbers are integers here (floating point is not modelled).
 */
module JsValue {

  datatype Value =
    | Undefined
    | Null
    | Bool(b: bool)
    | Num(n: int)
    | Str(s: string)
    | Arr(items: seq<Value>)
    | Obj(fields: map<string, Value>)

  /** JavaScript truthiness (`if (v)`, `v || d`, `!v`). */
  predicate Truthy(v: Value) {
    match v
    case Undefined => false
    case Null => false
    case Bool(b) => b
    case Num(n) => n != 0
    case Str(s) => s != ""
    case Arr(_) => true
    case Obj(_) => true
  }

  /** `v || d`: the value itself when truthy, otherwise the fallback. */
  function Or(v: Value, d: Value): (r: Value)
    ensures Truthy(v) ==> r == v
    ensures !Truthy(v) ==> r == d
  {
    if Truthy(v) then v else d
  }

  /** The service's "no value" test: undefined, null or the empty string. */
  predicate IsBlank(v: Value) {
    v == Undefined || v == Null || v == Str("")
  }

  /** The values whose `typeof` is "object": null, arrays and plain objects. */
  predicate IsObjectType(v: Value) {
    v.Null? || v.Arr? || v.Obj?
  }

  /** Reading property `k` of an object: a missing key reads as undefined.
      Objects have no prototype here, so names inherited from
      Object.prototype (such as `constructor` or `toString`) read as
      undefined too. */
  function Get(m: map<string, Value>, k: string): (r: Value)
    ensures k !in m ==> r == Undefined
    ensures k in m ==> r == m[k]
  {
    if k in m then m[k] else Undefined
  }

  function Digit(d: nat): (c: char)
    requires d < 10
    ensures '0' <= c <= '9'
  {
    "0123456789"[d]
  }

  /** Decimal notation of a natural number, as `String(n)` produces it. */
  function NatString(n: nat): (s: string)
    ensures |s| > 0
    ensures forall i :: 0 <= i < |s| ==> '0' <= s[i] <= '9'
    ensures n < 10 <==> |s| == 1
    decreases n
  {
    if n < 10 then [Digit(n)] else NatString(n / 10) + [Digit(n % 10)]
  }

  /**
   * `String(v)`, the conversion used when a value becomes an object key
   * (`labels[v] = true`, `labels.hasOwnProperty(v)`). Arrays join their
   * elements with commas, rendering null and undefined elements as "".
   */
  function ToPropertyKey(v: Value): string
    decreases v, 1, 0
  {
    match v
    case Undefined => "undefined"
    case Null => "null"
    case Bool(b) => if b then "true" else "false"
    case Num(n) => if n < 0 then "-" + NatString(-n) else NatString(n)
    case Str(s) => s
    case Arr(items) => JoinFrom(v, 0)
    case Obj(_) => "[object Object]"
  }

  function JoinFrom(v: Value, i: nat): string
    requires v.Arr?
    decreases v, 0, |v.items| - i
  {
    if i >= |v.items| then ""
    else
      var e := v.items[i];
      var s := if e.Undefined? || e.Null? then "" else ToPropertyKey(e);
      if i + 1 == |v.items| then s else s + "," + JoinFrom(v, i + 1)
  }
}
