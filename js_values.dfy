/** JavaScript values as they arrive in request bodies, query strings and rows, and the
    operators the handlers apply to them: truthiness, `||`, `??`, property access and String(). */
module JsValues {
  import opened Wrappers
  import opened Strings

  /** A JSON-shaped JavaScript value. Numbers are integers here. */
  datatype JsValue =
    | Undefined
    | Null
    | Bool(b: bool)
    | Num(n: int)
    | Str(s: string)
    | Arr(items: seq<JsValue>)
    | Obj(props: map<string, JsValue>)

  /** JavaScript truthiness: undefined, null, false, 0 and "" are falsy. */
  predicate Truthy(v: JsValue)
  {
    match v
    case Undefined => false
    case Null => false
    case Bool(b) => b
    case Num(n) => n != 0
    case Str(s) => s != []
    case Arr(_) => true
    case Obj(_) => true
  }

  predicate Nullish(v: JsValue) { v.Undefined? || v.Null? }

  /** `a || b`. */
  function Or(a: JsValue, b: JsValue): JsValue
  {
    if Truthy(a) then a else b
  }

  /** `a ?? b`. */
  function Coalesce(a: JsValue, b: JsValue): JsValue
  {
    if Nullish(a) then b else a
  }

  /** A destructuring default `{ k = d } = obj`: applies only when the value is undefined. */
  function DefaultIfUndefined(a: JsValue, d: JsValue): JsValue
  {
    if a.Undefined? then d else a
  }

  /** `v[k]` for a value whose properties can be read (not null or undefined). Objects give
      their own property (or undefined); arrays and strings have `length` and no other
      named property used here. */
  function Get(v: JsValue, k: string): JsValue
  {
    match v
    case Obj(m) => if k in m then m[k] else Undefined
    case Arr(items) => if k == "length" then Num(|items|) else Undefined
    case Str(s) => if k == "length" then Num(|s|) else Undefined
    case _ => Undefined
  }

  /** `v.k`: throws a TypeError when `v` is null or undefined. */
  function Prop(v: JsValue, k: string): (r: Result<JsValue>)
    ensures r.Err? <==> Nullish(v)
    ensures r.Ok? ==> r.value == Get(v, k)
  {
    if Nullish(v) then Err("TypeError: Cannot read properties of " + (if v.Null? then "null" else "undefined"))
    else Ok(Get(v, k))
  }

  /** `v?.k`: optional chaining gives undefined on a nullish `v`. */
  function OptProp(v: JsValue, k: string): (r: JsValue)
    ensures Nullish(v) ==> r.Undefined?
    ensures !Nullish(v) ==> r == Get(v, k)
  {
    if Nullish(v) then Undefined else Get(v, k)
  }

  /** Object.prototype.hasOwnProperty.call(v, k) for the allow-listed key names, which are
      never array indices or `length`. */
  predicate HasOwn(v: JsValue, k: string)
  {
    v.Obj? && k in v.props
  }

  function DigitChar(d: int): char
    requires 0 <= d < 10
  {
    ('0' as int + d) as char
  }

  /** The decimal numeral of a natural number. */
  function NatToString(n: nat): (r: string)
    ensures |r| >= 1
    ensures forall i :: 0 <= i < |r| ==> '0' <= r[i] <= '9'
  {
    if n < 10 then [DigitChar(n)] else NatToString(n / 10) + [DigitChar(n % 10)]
  }

  function IntToString(n: int): string
  {
    if n < 0 then "-" + NatToString(-n) else NatToString(n)
  }

  /** `String(v)`. Array elements that are null or undefined print as the empty string. */
  function ToString(v: JsValue): string
    decreases v
  {
    match v
    case Undefined => "undefined"
    case Null => "null"
    case Bool(b) => if b then "true" else "false"
    case Num(n) => IntToString(n)
    case Str(s) => s
    case Arr(items) =>
      Join(seq(|items|, i requires 0 <= i < |items| =>
        if Nullish(items[i]) then "" else ToString(items[i])), ",")
    case Obj(_) => "[object Object]"
  }

  /** `String(s ?? '')` of a string is that string. */
  lemma StrIsItsOwnText(s: string)
    ensures ToString(Coalesce(Str(s), Str(""))) == s
  {
  }
}
