/** The JSON-like values a script holds (variables, keys, arguments) and the two
    JavaScript coercions the runner relies on: `String(v)`, used whenever a value
    indexes an object, and truthiness, used by `||` and `if`. */
module JsValues {

  import opened Text

  /** `Undef` is JavaScript's `undefined`; numbers are modelled as integers. */
  datatype Value = Undef | Str(s: string) | Num(n: int) | Arr(items: seq<Value>)

  function DigitChar(d: nat): char
    requires d < 10
  {
    "0123456789"[d]
  }

  /** Decimal notation of a natural number, most significant digit first. */
  function NatString(n: nat): (r: string)
    ensures |r| >= 1
    ensures forall i :: 0 <= i < |r| ==> '0' <= r[i] <= '9'
    decreases n
  {
    if n < 10 then [DigitChar(n)] else NatString(n / 10) + [DigitChar(n % 10)]
  }

  function IntString(n: int): string {
    if n < 0 then "-" + NatString(-n) else NatString(n)
  }

  /** `String(v)`: the property name under which `obj[v]` is looked up. An array
      joins its elements with ",", and an `undefined` element becomes "". */
  function JsString(v: Value): string
  {
    match v
    case Undef => "undefined"
    case Str(s) => s
    case Num(n) => IntString(n)
    case Arr(items) =>
      Join(seq(|items|, i requires 0 <= i < |items| =>
                 if items[i].Undef? then "" else JsString(items[i])), ",")
  }

  /** JavaScript truthiness: `undefined`, "" and 0 are falsy. */
  predicate Truthy(v: Value) {
    match v
    case Undef => false
    case Str(s) => s != ""
    case Num(n) => n != 0
    case Arr(_) => true
  }

  /** `_.isArray(v) ? v : [v]` */
  function ToArray(v: Value): (r: seq<Value>)
    ensures !v.Arr? ==> r == [v]
  {
    if v.Arr? then v.items else [v]
  }
}
