/**
  The loosely-typed Python values the record builder moves around: keyword
  arguments coming in, dictionary entries going out, and Python's notion of
  truthiness, which decides whether a field is written at all.
 */
module Values {
  import opened Timestamp

  datatype Option<T> = None | Some(value: T)

  /** A Python value as far as the feed code can meet one. */
  datatype Value =
    | Null                             // None
    | Bool(b: bool)
    | Int(i: int)
    | Str(s: string)                   // str, and Markup, which subclasses it
    | List(elems: seq<Value>)
    | Dict(fields: map<string, Value>)
    | Stamp(date: DateTime)            // datetime.datetime
    | Obj(name: string)                // a host object (author, tag, ...) whose str() is `name`

  /** The exceptions the modelled code can raise. */
  datatype Error =
    | KeyError(key: string)                   // `d[key]` on a missing key
    | AttributeError(value: Value, attr: string) // `value.attr` on a value without it
    | TypeError(left: Value, right: Value)    // `left + right` on unsupported operands
    | ValueError(value: Value)                // `%z` of a datetime whose offset is a day or more

  datatype Result<T> = Ok(value: T) | Err(error: Error)

  /** `bool(v)`: None, False, zero and empty containers are falsy; a datetime and a
      host object without `__bool__`/`__len__` are always truthy. */
  predicate Truthy(v: Value) {
    match v
    case Null => false
    case Bool(b) => b
    case Int(i) => i != 0
    case Str(s) => |s| > 0
    case List(xs) => |xs| > 0
    case Dict(m) => |m| > 0
    case Stamp(_) => true
    case Obj(_) => true
  }

  /** `d.get(key, default)` */
  function GetOr(d: map<string, Value>, key: string, default: Value): Value {
    if key in d then d[key] else default
  }

  /** `d.get(key)` */
  function Get(d: map<string, Value>, key: string): Value {
    GetOr(d, key, Null)
  }

  /** `left + right` where both are strings; anything else raises TypeError. */
  function Add(left: Value, right: Value): (r: Result<Value>)
    ensures r.Ok? <==> left.Str? && right.Str?
    ensures r.Ok? ==> r.value.Str? && |r.value.s| == |left.s| + |right.s|
                      && r.value.s[..|left.s|] == left.s && r.value.s[|left.s|..] == right.s
    ensures r.Err? ==> r.error == TypeError(left, right)
  {
    if left.Str? && right.Str? then Ok(Str(left.s + right.s)) else Err(TypeError(left, right))
  }
}
