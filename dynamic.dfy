/** The dynamically typed values the JavaScript and Python code pass around (parsed JSON,
    request bodies, DynamoDB items), with the truthiness, property access and string
    conversion rules of each language. */
module Dynamic {
  import opened Text

  datatype Option<+T> = None | Some(value: T)

  /** A JavaScript value as the core reads it: JSON data plus `undefined`. Numbers are
      integers. On the Python side `None` is `Null`, a list is `Arr` and a dict is `Obj`. */
  datatype Value =
    | Undefined
    | Null
    | Bool(b: bool)
    | Num(n: int)
    | Str(s: string)
    | Arr(items: seq<Value>)
    | Obj(fields: map<string, Value>)

  /** JavaScript truthiness, `!!v`: every object and array is truthy. */
  predicate Truthy(v: Value) {
    match v
    case Undefined => false
    case Null => false
    case Bool(b) => b
    case Num(n) => n != 0
    case Str(s) => s != []
    case Arr(_) => true
    case Obj(_) => true
  }

  /** Python truthiness, `bool(v)`: empty lists and dicts are false. */
  predicate PyTruthy(v: Value) {
    match v
    case Undefined => false
    case Null => false
    case Bool(b) => b
    case Num(n) => n != 0
    case Str(s) => s != []
    case Arr(xs) => xs != []
    case Obj(m) => m != map[]
  }

  /** `v.key` and `v?.key`: an object's own property, `undefined` when it is missing or `v`
      is not an object. (No property name read by the core names a built-in property of
      strings, arrays or `Object.prototype`.) */
  function Get(v: Value, key: string): Value {
    if v.Obj? && key in v.fields then v.fields[key] else Undefined
  }

  /** `a || b`. */
  function Or(a: Value, b: Value): Value {
    if Truthy(a) then a else b
  }

  /** `(v || fallback)` when the result is then used as a string (`.trim()`, `.toLowerCase()`):
      a truthy value that is not a string has no such method, so the call throws (`None`). */
  function StringOr(v: Value, fallback: string): Option<string> {
    if !Truthy(v) then Some(fallback) else if v.Str? then Some(v.s) else None
  }

  /** `v !== false`. */
  predicate NotFalse(v: Value) {
    v != Bool(false)
  }

  /** Python `d.get(key)`. */
  function PyGet(d: map<string, Value>, key: string): Value {
    if key in d then d[key] else Null
  }

  /** Python `d.get(key, default)`: the default is used only for a MISSING key, not for `None`. */
  function PyGetOr(d: map<string, Value>, key: string, default: Value): Value {
    if key in d then d[key] else default
  }

  /** Python `(v or "").strip()`: a truthy value that is not a str raises `AttributeError` (`None`). */
  function PyStripOr(v: Value): (r: Option<string>)
    ensures r.None? <==> PyTruthy(v) && !v.Str?
    ensures r.Some? ==> TrimmedBy(r.value, IsPySpace)
  {
    if !PyTruthy(v) then Some("")
    else if v.Str? then TrimByTrims(v.s, IsPySpace); Some(Strip(v.s))
    else None
  }

  /** Python `v or {}` followed by `.get(...)`: a truthy value that is not a dict raises (`None`). */
  function PyDictOr(v: Value): Option<map<string, Value>> {
    if !PyTruthy(v) then Some(map[]) else if v.Obj? then Some(v.fields) else None
  }

  /** `String(v)`, which is also what a template literal `${v}` inserts. An array becomes its
      elements joined with `,`, with `null` and `undefined` elements left empty. */
  function ToJsString(v: Value): string
    decreases v
  {
    match v
    case Undefined => "undefined"
    case Null => "null"
    case Bool(b) => if b then "true" else "false"
    case Num(n) => IntToString(n)
    case Str(s) => s
    case Arr(xs) =>
      Join(seq(|xs|, i requires 0 <= i < |xs| =>
        if xs[i].Null? || xs[i].Undefined? then "" else ToJsString(xs[i])), ",")
    case Obj(_) => "[object Object]"
  }
}
