/** The Python values the system passes around as parsed JSON or YAML:
    dictionaries keyed by strings, lists, strings, integers, booleans and
    None. */
module Json {
  import opened Common
  import opened Text

  datatype Value =
    | Null
    | Bool(b: bool)
    | Int(i: int)
    | Str(s: string)
    | List(items: seq<Value>)
    | Dict(entries: map<string, Value>)

  /** Python truthiness (`if v:`). */
  predicate Truthy(v: Value) {
    match v
    case Null => false
    case Bool(b) => b
    case Int(i) => i != 0
    case Str(s) => |s| > 0
    case List(xs) => |xs| > 0
    case Dict(m) => |m| > 0
  }

  /** `key in d` for a dictionary value. */
  predicate HasKey(v: Value, key: string) {
    v.Dict? && key in v.entries
  }

  /** The TypeError message of `in` on a value it cannot search. */
  function NotIterable(v: Value): string {
    "argument of type '" + TypeName(v) + "' is not iterable"
  }

  /** Python's `key in v` for a string key: a dictionary's keys, a list's
      items, a substring of a string. Any other value raises TypeError. */
  function In(key: string, v: Value): (r: Result<bool, string>)
    ensures r.Err? <==> !(v.Dict? || v.List? || v.Str?)
    ensures r.Err? ==> r.error == NotIterable(v)
    ensures v.Dict? ==> r == Ok(key in v.entries)
  {
    match v
    case Dict(m) => Ok(key in m)
    case List(xs) => Ok(Str(key) in xs)
    case Str(s) => Ok(Contains(s, key))
    case _ => Err(NotIterable(v))
  }

  /** `all(key in v for key in keys)`: it stops at the first key not found,
      and on a value `in` cannot search the first test raises. Neither the
      answer nor the message depends on the order of the keys, so a set of
      keys may be listed in any order. */
  function AllIn(keys: seq<string>, v: Value): (r: Result<bool, string>)
    decreases |keys|
    ensures |keys| > 0 && !(v.Dict? || v.List? || v.Str?) ==> r == Err(NotIterable(v))
    ensures (v.Dict? || v.List? || v.Str?) || |keys| == 0 ==>
      r.Ok? && (r.value <==> forall k :: 0 <= k < |keys| ==> In(keys[k], v) == Ok(true))
  {
    if |keys| == 0 then Ok(true)
    else match In(keys[0], v)
      case Err(e) => Err(e)
      case Ok(false) => Ok(false)
      case Ok(true) => AllIn(keys[1..], v)
  }

  /** `d.get(key)` on a dictionary value. */
  function Get(v: Value, key: string): (r: Option<Value>)
    ensures r.Some? <==> HasKey(v, key)
    ensures r.Some? ==> r.value == v.entries[key]
  {
    if HasKey(v, key) then Some(v.entries[key]) else None
  }

  /** The Python type name, as error messages spell it. */
  function TypeName(v: Value): string {
    match v
    case Null => "NoneType"
    case Bool(_) => "bool"
    case Int(_) => "int"
    case Str(_) => "str"
    case List(_) => "list"
    case Dict(_) => "dict"
  }
}
