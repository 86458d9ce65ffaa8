/**
 * JavaScript values as they reach the site's code from parsed JSON bodies,
 * `process.env` and component props, with the coercions the code applies to
 * them: truthiness, `||`, `??`, property access, `String(v)` and `Number(v)`.
 */
module JsValue {
  import opened Wrappers
  import opened JsText
  import opened JsNumber

  datatype Value =
    | Undefined
    | Null
    | Bool(b: bool)
    | Num(n: Number)
    | Str(s: string)
    | Arr(items: seq<Value>)
    | Obj(props: map<string, Value>)

  /** What `JSON.parse` makes of a text: `None` when it throws a SyntaxError. */
  type JsonParser = string -> Option<Value>

  function EmptyObject(): Value { Obj(map[]) }

  predicate Nullish(v: Value) { v.Undefined? || v.Null? }

  /** The values JavaScript treats as false in a condition. */
  predicate Truthy(v: Value) {
    match v
    case Undefined => false
    case Null => false
    case Bool(b) => b
    case Num(n) => !n.NaN? && !IsZero(n)
    case Str(s) => s != []
    case Arr(_) => true
    case Obj(_) => true
  }

  /** `a || b` */
  function Or(a: Value, b: Value): (r: Value)
    ensures Truthy(a) ==> r == a
    ensures !Truthy(a) ==> r == b
  {
    if Truthy(a) then a else b
  }

  /** `a ?? b` */
  function Coalesce(a: Value, b: Value): (r: Value)
    ensures !Nullish(a) ==> r == a
    ensures Nullish(a) ==> r == b
  {
    if Nullish(a) then b else a
  }

  /**
   * `v.k` on a value that is not null or undefined (those throw a TypeError).
   * Only own properties of objects, and `length` of strings (in UTF-16 code
   * units) and arrays, are modelled: the keys the site reads here are none of
   * the Object.prototype members.
   */
  function Get(v: Value, k: string): Value
    requires !Nullish(v)
  {
    match v
    case Obj(props) => if k in props then props[k] else Undefined
    case Str(s) => if k == "length" then Num(FromInt(Length(s))) else Undefined
    case Arr(items) => if k == "length" then Num(FromInt(|items|)) else Undefined
    case _ => Undefined
  }

  /** `v?.k` */
  function OptGet(v: Value, k: string): Value
  {
    if Nullish(v) then Undefined else Get(v, k)
  }

  /** A destructuring default `{ k = d } = v`: the default replaces only `undefined`. */
  function GetOr(v: Value, k: string, d: Value): Value
    requires !Nullish(v)
  {
    var x := Get(v, k);
    if x.Undefined? then d else x
  }

  /** `String(v)`, and the conversion template literals apply. */
  function ToStr(v: Value): string
  {
    match v
    case Undefined => "undefined"
    case Null => "null"
    case Bool(b) => if b then "true" else "false"
    case Num(n) => NumberToString(n)
    case Str(s) => s
    // Array.prototype.join(","): null and undefined elements print as nothing
    case Arr(items) =>
      Join(seq(|items|, i requires 0 <= i < |items| => if Nullish(items[i]) then "" else ToStr(items[i])), ",")
    case Obj(_) => "[object Object]"
  }

  /** `Number(v)`: objects and arrays go through their string form. */
  function ToNumber(v: Value): Number
  {
    match v
    case Undefined => NaN
    case Null => Finite(0, 0)
    case Bool(b) => Finite(if b then 1 else 0, 0)
    case Num(n) => n
    case Str(s) => StringToNumber(s)
    case Arr(_) => StringToNumber(ToStr(v))
    case Obj(_) => StringToNumber(ToStr(v))
  }

  /** `typeof v === "string"` */
  predicate IsString(v: Value) { v.Str? }

  /** `x < k` for a JavaScript value and a number literal (the comparison goes through Number(x)). */
  predicate LessThanNumber(x: Value, k: Number) {
    Less(ToNumber(x), k)
  }
}
