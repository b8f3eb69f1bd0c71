/** JavaScript values as the core sees them: what JSON.parse produces, plus
    `undefined` for a missing property, and the few conversions the pages
    apply to them (truthiness, property access, ToString, ToNumber). Number
    formatting and number parsing are floating-point routines of the runtime;
    they are parameters here (Env). */
module JsValues {

  /** The outcome of awaiting a foreign call: the value it resolved to, or the
      exception it threw (a rejected promise), with that exception's `message`
      ("" when it has none). */
  datatype Awaited<T> = Resolved(value: T) | Threw(message: string)

  datatype Option<T> = None | Some(value: T)

  /** A JavaScript value built by JSON.parse, or `undefined`. Numbers are exact
      reals: JSON.parse never yields NaN or an infinity. */
  datatype JsValue =
    | Undefined
    | Null
    | Bool(b: bool)
    | Number(n: real)
    | Str(s: string)
    | Arr(items: seq<JsValue>)
    | Obj(props: map<string, JsValue>)

  /** The result of ToNumber: NaN or a finite number. */
  datatype Num = NaN | Finite(r: real)

  /** Runtime routines left abstract: Number::toString and StringToNumber. */
  datatype Env = Env(numberText: real -> string, parseNumber: string -> Num)

  /** ToBoolean: the falsy values are undefined, null, false, 0 and "". */
  predicate Truthy(v: JsValue) {
    match v
    case Undefined => false
    case Null => false
    case Bool(b) => b
    case Number(n) => n != 0.0
    case Str(s) => s != ""
    case Arr(_) => true
    case Obj(_) => true
  }

  /** `v?.[key]` for a named (non-index, non-`length`) key: an own property of an
      object, `undefined` otherwise. */
  function Get(v: JsValue, key: string): (r: JsValue)
    ensures r != Undefined ==> v.Obj? && key in v.props && r == v.props[key]
    ensures v.Obj? && key in v.props ==> r == v.props[key]
  {
    if v.Obj? && key in v.props then v.props[key] else Undefined
  }

  /** `a || b`. */
  function Or(a: JsValue, b: JsValue): (r: JsValue)
    ensures Truthy(a) ==> r == a
    ensures !Truthy(a) ==> r == b
  {
    if Truthy(a) then a else b
  }

  /** ToString, as a template literal `${v}` applies it. Array elements that are
      null or undefined become empty, as Array.prototype.join does. */
  function ToStr(v: JsValue, env: Env): string
  {
    match v
    case Undefined => "undefined"
    case Null => "null"
    case Bool(b) => if b then "true" else "false"
    case Number(n) => env.numberText(n)
    case Str(s) => s
    case Arr(items) => Join(items, env)
    case Obj(_) => "[object Object]"
  }

  function Join(items: seq<JsValue>, env: Env): string
    decreases items
  {
    if |items| == 0 then ""
    else
      var head := if items[0].Undefined? || items[0].Null? then "" else ToStr(items[0], env);
      if |items| == 1 then head else head + "," + Join(items[1..], env)
  }

  /** ToNumber. Objects and arrays go through their string form, as
      ToPrimitive with hint number does for plain objects and arrays. */
  function ToNumber(v: JsValue, env: Env): (r: Num)
    ensures v.Number? ==> r == Finite(v.n)
    ensures v.Undefined? ==> r == NaN
  {
    match v
    case Undefined => NaN
    case Null => Finite(0.0)
    case Bool(b) => Finite(if b then 1.0 else 0.0)
    case Number(n) => Finite(n)
    case Str(s) => env.parseNumber(s)
    case Arr(_) => env.parseNumber(ToStr(v, env))
    case Obj(_) => env.parseNumber(ToStr(v, env))
  }

  /** `x >= k` for a numeric literal `k`: false whenever `x` is NaN. */
  predicate AtLeast(x: Num, k: real) {
    x.Finite? && x.r >= k
  }
}
